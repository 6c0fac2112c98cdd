/** The game page's own state (static/main.js): the last snapshot from the
    server, the setup page's player count, the admin choices remembered
    between snapshots and the admin select box. A `null` admin choice is
    written as the empty string: the page only ever tests these for
    truthiness, and the empty string is the other value that fails that
    test. */
module ClientState {
  import opened Wrappers
  import opened Ledger
  import opened Setup
  import History
  import Leaderboard

  /** The value a select box takes when it is set to `v`: `v` when one of
      its options has that value, otherwise the empty string. */
  function Assigned(options: seq<string>, v: string): (r: string)
    ensures r == "" || r in options
    ensures v in options ==> r == v
    ensures v !in options ==> r == ""
  {
    if v in options then v else ""
  }

  /** The first player, or the empty string when there is none. */
  function FirstOr(players: seq<string>): (r: string)
    ensures players != [] ==> r == players[0]
  {
    if players == [] then "" else players[0]
  }

  /** The admin choices and the admin select box: the admin remembered for
      `manual` mode, the admin of the round being entered, the box's options
      and its value. */
  datatype Selection = Selection(manual: string, current: string, options: seq<string>, value: string)

  /** The select box shows one of its options or nothing. */
  predicate Shows(sel: Selection) {
    sel.value == "" || sel.value in sel.options
  }

  /** `updateAdminBadge` on the selection, for snapshot `s`. In `none` mode
      only the current admin is cleared. In `manual` mode the box is refilled
      with the players and keeps the remembered admin (or, failing that, its
      old value) while that is still a player, else shows the first player;
      both choices follow the box. In the other modes the box is refilled
      and set to the server's next admin, or the first player when the
      server names none; the current admin follows the box. */
  function AdminBadge(s: StateView, sel: Selection): (r: Selection)
    ensures Shows(sel) ==> Shows(r)
    ensures s.mode.NoAdmin? ==> r == sel.(current := "")
    ensures !s.mode.NoAdmin? ==> r.options == s.players && r.current == r.value
    ensures !s.mode.NoAdmin? && s.players != [] && (s.mode.Manual? || s.nextAdmin.None? || s.nextAdmin.value in s.players)
      ==> r.value in s.players
    ensures !s.mode.Manual? ==> r.manual == sel.manual
    ensures s.mode.Manual? ==> r.manual == r.value
    ensures s.mode.Manual? ==>
      var prev := if sel.manual != "" then sel.manual else sel.value;
      && (prev != "" && prev in s.players ==> r.value == prev)
      && (s.players != [] && (prev == "" || prev !in s.players) ==> r.value == s.players[0])
    ensures !s.mode.NoAdmin? && !s.mode.Manual? && s.players != [] && (s.nextAdmin.None? || s.nextAdmin.value == "")
      ==> r.value == s.players[0]
    ensures !s.mode.NoAdmin? && s.players == [] ==> r.value == ""
  {
    if s.mode.NoAdmin? then sel.(current := "")
    else if s.mode.Manual? then
      var prev := if sel.manual != "" then sel.manual else sel.value;
      var v := Assigned(s.players, if prev != "" && prev in s.players then prev else FirstOr(s.players));
      Selection(v, v, s.players, v)
    else
      var wanted := if s.nextAdmin.Some? && s.nextAdmin.value != "" then s.nextAdmin.value
                    else FirstOr(s.players);
      var v := Assigned(s.players, wanted);
      Selection(sel.manual, v, s.players, v)
  }

  /** In `manual` mode an admin chosen before a new snapshot is still the
      admin after it, as long as they are still a player. */
  lemma ManualAdminSurvives(s: StateView, sel: Selection)
    requires s.mode.Manual? && sel.manual != "" && sel.manual in s.players
    ensures AdminBadge(s, sel).manual == sel.manual
    ensures AdminBadge(s, sel).current == sel.manual
    ensures AdminBadge(s, sel).value == sel.manual
  {
  }

  /** Outside `manual` mode the box follows the server: when it names a
      player as the next admin, that player becomes the current admin. */
  lemma BadgeFollowsServer(s: StateView, sel: Selection)
    requires !s.mode.NoAdmin? && !s.mode.Manual?
    requires s.nextAdmin.Some? && s.nextAdmin.value != "" && s.nextAdmin.value in s.players
    ensures AdminBadge(s, sel).current == s.nextAdmin.value
  {
  }

  /** The page's globals and the admin select box. */
  class Client {
    var state: Option<StateView>
    var playerCount: int
    var manualAdminSelected: string
    var currentAdminSelected: string
    var selectOptions: seq<string>
    var selectValue: string

    /** The select box shows one of its options or nothing, and the player
        count stays between its bounds. */
    ghost predicate Valid()
      reads this
    {
      && (selectValue == "" || selectValue in selectOptions)
      && MinPlayers <= playerCount <= MaxPlayers
    }

    /** The admin choices and the select box, together. */
    function AdminSelection(): Selection
      reads this
    {
      Selection(manualAdminSelected, currentAdminSelected, selectOptions, selectValue)
    }

    /** The page as loaded: no snapshot, four setup rows, nothing chosen. */
    constructor ()
      ensures Valid()
      ensures state == None && playerCount == 4
      ensures manualAdminSelected == "" && currentAdminSelected == ""
      ensures selectOptions == [] && selectValue == ""
    {
      state := None;
      playerCount := 4;
      manualAdminSelected := "";
      currentAdminSelected := "";
      selectOptions := [];
      selectValue := "";
    }

    /** `changeCount`: move the number of setup rows by `delta`, held
        between two and ten. */
    method ChangeCount(delta: int)
      requires Valid()
      modifies this
      ensures Valid()
      ensures playerCount == ClampCount(old(playerCount) + delta)
      ensures delta >= 0 ==> old(playerCount) <= playerCount
      ensures delta <= 0 ==> playerCount <= old(playerCount)
      ensures state == old(state) && selectValue == old(selectValue) && selectOptions == old(selectOptions)
      ensures manualAdminSelected == old(manualAdminSelected)
      ensures currentAdminSelected == old(currentAdminSelected)
    {
      playerCount := ClampCount(playerCount + delta);
    }

    /** `getCurrentAdmin`: no admin in `none` mode; otherwise the admin
        chosen last, or failing that the select box's value. */
    function CurrentAdmin(): (a: Option<string>)
      reads this
      requires state.Some?
      ensures a.None? <==> state.value.mode.NoAdmin?
      ensures a.Some? && currentAdminSelected != "" ==> a.value == currentAdminSelected
      ensures a.Some? && currentAdminSelected == "" ==> a.value == selectValue
    {
      if state.value.mode.NoAdmin? then None
      else if currentAdminSelected != "" then Some(currentAdminSelected)
      else Some(selectValue)
    }

    /** `updateAdminBadge`: refill the admin select box from the snapshot's
        players and pick this round's admin in it. In `manual` mode the
        admin remembered from before stays chosen while it is still a
        player, and the first player is chosen otherwise; in the other modes
        with an admin the server's next admin is chosen, the first player
        when the server names none. */
    method UpdateAdminBadge()
      requires Valid() && state.Some?
      modifies this
      ensures Valid()
      ensures state == old(state) && playerCount == old(playerCount)
      ensures AdminSelection() == AdminBadge(state.value, old(AdminSelection()))
      ensures var s := state.value;
        !s.mode.NoAdmin? && s.players != [] && (s.mode.Manual? || s.nextAdmin.None? || s.nextAdmin.value in s.players)
        ==> CurrentAdmin().Some? && CurrentAdmin().value in s.players
      ensures var s := state.value;
        !s.mode.NoAdmin? && !s.mode.Manual? && s.nextAdmin.Some? && s.nextAdmin.value != "" && s.nextAdmin.value in s.players
        ==> CurrentAdmin() == s.nextAdmin
    {
      var s := state.value;
      if s.mode.NoAdmin? {
        currentAdminSelected := "";
        return;
      }
      if s.mode.Manual? {
        var prev := if manualAdminSelected != "" then manualAdminSelected else selectValue;
        selectOptions := s.players;
        if prev != "" && prev in s.players {
          selectValue := Assigned(selectOptions, prev);
        } else {
          selectValue := Assigned(selectOptions, FirstOr(s.players));
        }
        manualAdminSelected := selectValue;
        currentAdminSelected := selectValue;
      } else {
        selectOptions := s.players;
        var wanted := if s.nextAdmin.Some? && s.nextAdmin.value != "" then s.nextAdmin.value
                      else FirstOr(s.players);
        selectValue := Assigned(selectOptions, wanted);
        currentAdminSelected := selectValue;
      }
    }

    /** `onManualAdminChange`: the user picks option `v` of the admin select
        box; it becomes the current admin, and in `manual` mode also the
        one remembered for the next snapshot. */
    method ChooseAdmin(v: string)
      requires Valid() && v in selectOptions
      modifies this
      ensures Valid()
      ensures selectValue == v && currentAdminSelected == v
      ensures state.Some? && state.value.mode.Manual? ==> manualAdminSelected == v
      ensures !(state.Some? && state.value.mode.Manual?) ==> manualAdminSelected == old(manualAdminSelected)
      ensures state == old(state) && selectOptions == old(selectOptions) && playerCount == old(playerCount)
    {
      selectValue := v;
      currentAdminSelected := selectValue;
      if state.Some? && state.value.mode.Manual? {
        manualAdminSelected := currentAdminSelected;
      }
    }

    /** `applyState`: keep the snapshot, update the admin select box, and
        draw the round history and, when it is open, the leaderboard. */
    method ApplyState(s: StateView, summaryOpen: bool)
      returns (history: History.HistoryTable, summary: Option<seq<Leaderboard.SummaryRow>>)
      requires Valid()
      modifies this
      ensures Valid()
      ensures state == Some(s) && playerCount == old(playerCount)
      ensures AdminSelection() == AdminBadge(s, old(AdminSelection()))
      ensures history.NoRounds? <==> s.rounds == []
      ensures history.Table? ==>
        && history.cells == History.CellRows(s.players, s.rounds)
        && history.initial == History.Inferred(s.totals, s.rounds, s.players, |s.players|)
        && history.running == History.Replay(history.initial, s.players, s.rounds)
      ensures summary.Some? <==> summaryOpen
      ensures summaryOpen ==> summary.value == Leaderboard.Summary(s.players, s.totals)
      ensures !s.mode.NoAdmin? && s.players != [] && (s.mode.Manual? || s.nextAdmin.None? || s.nextAdmin.value in s.players)
        ==> CurrentAdmin().Some? && CurrentAdmin().value in s.players
      ensures !s.mode.NoAdmin? && !s.mode.Manual? && s.nextAdmin.Some? && s.nextAdmin.value != "" && s.nextAdmin.value in s.players
        ==> CurrentAdmin() == s.nextAdmin
    {
      state := Some(s);
      UpdateAdminBadge();
      history := History.ReplayHistory(s.players, s.totals, s.rounds);
      summary := if summaryOpen then Some(Leaderboard.Summary(s.players, s.totals)) else None;
    }
  }
}
