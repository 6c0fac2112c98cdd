/** The browser's display helpers (static/main.js): the player colour
    palette and the avatar initials. */
module Display {

  /** One palette entry: background, text and solid colour. */
  datatype Colour = Colour(bg: string, text: string, solid: string)

  /** `COLORS`, eight entries in this order. */
  const Palette: seq<Colour> := [
    Colour("#6c63ff22", "#a78bfa", "#6c63ff"),
    Colour("#f43f5e22", "#fb7185", "#f43f5e"),
    Colour("#22d3a022", "#34d399", "#22d3a0"),
    Colour("#fbbf2422", "#fcd34d", "#fbbf24"),
    Colour("#38bdf822", "#7dd3fc", "#38bdf8"),
    Colour("#e879f922", "#f0abfc", "#e879f9"),
    Colour("#fb923c22", "#fdba74", "#fb923c"),
    Colour("#a3e63522", "#bef264", "#a3e635")
  ]

  /** `playerColor(i)`: the palette entry for the player at index `i`. */
  function PlayerColor(i: nat): (c: Colour)
    ensures c in Palette
    ensures c == Palette[i % |Palette|]
  {
    Palette[i % 8]
  }

  /** The colours repeat with period eight, and two indices share a colour
      exactly when they are congruent modulo eight. */
  lemma ColourCycle(i: nat, j: nat)
    ensures |Palette| == 8
    ensures PlayerColor(i + 8) == PlayerColor(i)
    ensures PlayerColor(i) == PlayerColor(j) <==> i % 8 == j % 8
  {
    assert (i + 8) % 8 == i % 8;
    if i % 8 != j % 8 {
      assert Palette[i % 8].bg != Palette[j % 8].bg;
    }
  }

  // ------------------------------------------------------------ whitespace

  /** JavaScript's white space and line terminators: what `trim` removes and
      what `\s` matches. */
  predicate IsSpace(c: char) {
    c == '\t' || c == '\n' || c == '\U{000B}' || c == '\U{000C}' || c == '\r' || c == ' '
    || c == '\U{00A0}' || c == '\U{1680}' || ('\U{2000}' <= c <= '\U{200A}')
    || c == '\U{2028}' || c == '\U{2029}' || c == '\U{202F}' || c == '\U{205F}'
    || c == '\U{3000}' || c == '\U{FEFF}'
  }

  /** The string without its leading white space. */
  function TrimStart(s: string): (r: string)
    ensures |r| <= |s| && r == s[|s| - |r|..]
    ensures forall k | 0 <= k < |s| - |r| :: IsSpace(s[k])
    ensures r == [] || !IsSpace(r[0])
  {
    if s != [] && IsSpace(s[0]) then TrimStart(s[1..]) else s
  }

  /** The string without its trailing white space. */
  function TrimEnd(s: string): (r: string)
    ensures |r| <= |s| && r == s[..|r|]
    ensures forall k | |r| <= k < |s| :: IsSpace(s[k])
    ensures r == [] || !IsSpace(r[|r| - 1])
  {
    if s != [] && IsSpace(s[|s| - 1]) then TrimEnd(s[..|s| - 1]) else s
  }

  /** `String.prototype.trim`. */
  function Trim(s: string): (r: string)
    ensures r == [] || (!IsSpace(r[0]) && !IsSpace(r[|r| - 1]))
    ensures r == [] <==> forall k | 0 <= k < |s| :: IsSpace(s[k])
    ensures var a := |s| - |TrimStart(s)|;
      && a + |r| <= |s| && r == s[a..a + |r|]
      && (forall k | 0 <= k < a :: IsSpace(s[k]))
      && (forall k | a + |r| <= k < |s| :: IsSpace(s[k]))
  {
    var t := TrimStart(s);
    var r := TrimEnd(t);
    assert r != [] ==> r[0] == t[0];
    assert t != [] ==> r != [];
    TrimSlice(s, t, r);
    r
  }

  /** Trimming the end of the part of `s` after its leading white space
      keeps a slice of `s` followed only by white space. */
  lemma TrimSlice(s: string, t: string, r: string)
    requires |t| <= |s| && t == s[|s| - |t|..]
    requires |r| <= |t| && r == t[..|r|]
    requires forall k | |r| <= k < |t| :: IsSpace(t[k])
    ensures var a := |s| - |t|;
      && a + |r| <= |s| && r == s[a..a + |r|]
      && (forall k | a + |r| <= k < |s| :: IsSpace(s[k]))
  {
    var a := |s| - |t|;
    forall k | a + |r| <= k < |s| ensures IsSpace(s[k]) {
      assert s[k] == t[k - a];
    }
  }

  /** A string with no white space at either end is its own trim. */
  lemma TrimUnspaced(s: string)
    requires s == [] || (!IsSpace(s[0]) && !IsSpace(s[|s| - 1]))
    ensures Trim(s) == s
  {
    if s != [] {
      assert TrimStart(s) == s;
      assert TrimEnd(s) == s;
    }
  }

  /** Trimming twice is trimming once. */
  lemma TrimIdempotent(s: string)
    ensures Trim(Trim(s)) == Trim(s)
  {
    TrimUnspaced(Trim(s));
  }

  // ------------------------------------------------------------- splitting

  /** The longest prefix without white space. */
  function Word(s: string): (w: string)
    ensures |w| <= |s| && w == s[..|w|]
    ensures forall k | 0 <= k < |w| :: !IsSpace(w[k])
    ensures |w| < |s| ==> IsSpace(s[|w|])
  {
    if s == [] || IsSpace(s[0]) then []
    else
      var w := Word(s[1..]);
      assert ([s[0]] + w)[1..] == w;
      [s[0]] + w
  }

  /** Splitting on runs of white space: the pieces between maximal runs of white space; a
      leading or trailing run gives an empty first or last piece, and the
      empty string gives one empty piece. */
  function Split(s: string): (words: seq<string>)
    ensures |words| >= 1
    decreases |s|
  {
    var w := Word(s);
    if |w| == |s| then [w]
    else [w] + Split(TrimStart(s[|w|..]))
  }

  /** The pieces of a string with no white space at either end are all
      non-empty, and the first starts with the string's first character. */
  lemma {:induction false} SplitTrimmed(s: string)
    requires s != [] && !IsSpace(s[0]) && !IsSpace(s[|s| - 1])
    ensures forall k | 0 <= k < |Split(s)| :: Split(s)[k] != []
    ensures Split(s)[0][0] == s[0]
    decreases |s|
  {
    var w := Word(s);
    if |w| < |s| {
      var rest := TrimStart(s[|w|..]);
      assert rest != [] && rest[|rest| - 1] == s[|s| - 1] by {
        assert s[|s| - 1] == s[|w|..][|s| - |w| - 1];
      }
      SplitTrimmed(rest);
      assert Split(s) == [w] + Split(rest);
    }
  }

  /** The first character of every piece, joined; an empty piece has no
      first character and contributes nothing. */
  function FirstChars(words: seq<string>): (r: string)
    ensures |r| <= |words|
    ensures (forall k | 0 <= k < |words| :: words[k] != []) ==>
      |r| == |words| && forall k | 0 <= k < |words| :: r[k] == words[k][0]
  {
    if words == [] then []
    else (if words[0] == [] then [] else [words[0][0]]) + FirstChars(words[1..])
  }

  /** `toUpperCase`, for the ASCII letters. */
  function UpperChar(c: char): (u: char)
    ensures 'a' <= c <= 'z' ==> 'A' <= u <= 'Z' && u as int == c as int - 32
    ensures !('a' <= c <= 'z') ==> u == c
  {
    if 'a' <= c <= 'z' then (c as int - 32) as char else c
  }

  function Upper(s: string): (u: string)
    ensures |u| == |s| && forall k | 0 <= k < |s| :: u[k] == UpperChar(s[k])
  {
    seq(|s|, k requires 0 <= k < |s| => UpperChar(s[k]))
  }

  /** `initials(name)`: the upper-cased first characters of the words of
      the trimmed name, at most two of them, or `"?"` when that is empty. */
  function Initials(name: string): (r: string)
    ensures 1 <= |r| <= 2
  {
    FirstTwo(FirstChars(Split(Trim(name))))
  }

  /** The first two characters upper-cased, or `"?"` when there are none. */
  function FirstTwo(f: string): (r: string)
    ensures 1 <= |r| <= 2
  {
    var u := Upper(f);
    var taken := if |u| <= 2 then u else u[..2];
    if taken == [] then "?" else taken
  }

  /** What `FirstTwo` keeps of a non-empty string of first characters. */
  lemma FirstTwoOf(f: string)
    requires f != []
    ensures FirstTwo(f)[0] == UpperChar(f[0])
    ensures |FirstTwo(f)| == 2 <==> |f| >= 2
    ensures |f| >= 2 ==> FirstTwo(f)[1] == UpperChar(f[1])
  {
  }

  /** A blank name gives `"?"`. */
  lemma InitialsOfBlank(name: string)
    requires Trim(name) == []
    ensures Initials(name) == "?"
  {
    var e: string := [];
    assert Word(e) == e;
    assert Split(e) == [e];
    assert FirstChars([e]) == e;
    assert |Upper(e)| == 0;
  }

  /** Any other name gives its first character upper-cased, followed by the
      second word's first character upper-cased when there is a second
      word. */
  lemma InitialsOfName(name: string)
    requires Trim(name) != []
    ensures var t := Trim(name);
      var words := Split(t);
      && Initials(name)[0] == UpperChar(t[0])
      && (|Initials(name)| == 2 <==> |words| >= 2)
      && (|words| >= 2 ==> words[1] != [] && Initials(name)[1] == UpperChar(words[1][0]))
  {
    var t := Trim(name);
    var words := Split(t);
    SplitTrimmed(t);
    var f := FirstChars(words);
    assert |f| == |words| && f[0] == t[0];
    assert |words| >= 2 ==> f[1] == words[1][0];
    FirstTwoOf(f);
  }
}
