/** The few string operations the modelled code relies on, over ASCII. */
module Text {

  predicate IsSpace(c: char) { c == ' ' || '\t' <= c <= '\r' || '\U{1C}' <= c <= '\U{1F}' }

  /** The ten ASCII characters Python's `isspace` accepts. */
  lemma SpacesAre(c: char)
    ensures IsSpace(c) <==>
              c == ' ' || c == '\t' || c == '\n' || c == '\r' || c == '\U{0B}' || c == '\U{0C}'
              || c == '\U{1C}' || c == '\U{1D}' || c == '\U{1E}' || c == '\U{1F}'
  {}

  function LowerChar(c: char): char { if 'A' <= c <= 'Z' then (c - 'A') + 'a' else c }

  function UpperChar(c: char): char { if 'a' <= c <= 'z' then (c - 'a') + 'A' else c }

  const SMALL := "abcdefghijklmnopqrstuvwxyz"

  const CAPITALS := "ABCDEFGHIJKLMNOPQRSTUVWXYZ"

  /** Each capital goes with the small letter at its place, and every other character stays as it is. */
  lemma CaseTables(c: char, i: nat)
    requires i < 26
    ensures LowerChar(CAPITALS[i]) == SMALL[i] && UpperChar(SMALL[i]) == CAPITALS[i]
    ensures !('A' <= c <= 'Z') ==> LowerChar(c) == c
    ensures !('a' <= c <= 'z') ==> UpperChar(c) == c
  {}

  function Lower(s: string): (r: string)
    ensures |r| == |s| && forall i | 0 <= i < |s| :: r[i] == LowerChar(s[i])
  {
    seq(|s|, i requires 0 <= i < |s| => LowerChar(s[i]))
  }

  function Upper(s: string): (r: string)
    ensures |r| == |s| && forall i | 0 <= i < |s| :: r[i] == UpperChar(s[i])
  {
    seq(|s|, i requires 0 <= i < |s| => UpperChar(s[i]))
  }

  predicate OccursAt(needle: string, hay: string, k: nat) {
    k + |needle| <= |hay| && hay[k..k + |needle|] == needle
  }

  /** Python's `needle in hay`. */
  predicate Contains(hay: string, needle: string) {
    exists k | 0 <= k <= |hay| :: OccursAt(needle, hay, k)
  }

  /** A text contains another exactly if it is made of something, the other, and something. */
  lemma ContainsIffBetween(hay: string, needle: string)
    ensures Contains(hay, needle) <==> exists front, back :: hay == front + needle + back
  {
    if Contains(hay, needle) {
      var k :| 0 <= k <= |hay| && OccursAt(needle, hay, k);
      assert hay == hay[..k] + needle + hay[k + |needle|..];
    }
    if front, back :| hay == front + needle + back {
      assert hay[|front|..|front| + |needle|] == needle;
      assert OccursAt(needle, hay, |front|);
    }
  }

  function DropSpaces(s: string): (r: string)
    ensures |r| <= |s|
    ensures r != "" ==> !IsSpace(r[0])
  {
    if s != "" && IsSpace(s[0]) then DropSpaces(s[1..]) else s
  }

  function DropTrailingSpaces(s: string): (r: string)
    ensures |r| <= |s| && r == s[..|r|]
    ensures r != "" ==> !IsSpace(r[|r| - 1])
  {
    if s != "" && IsSpace(s[|s| - 1]) then DropTrailingSpaces(s[..|s| - 1]) else s
  }

  /** Python's `s.strip()`. */
  function Strip(s: string): string { DropTrailingSpaces(DropSpaces(s)) }

  predicate AllSpaces(s: string) { forall i | 0 <= i < |s| :: IsSpace(s[i]) }

  /** Stripping takes white space off both ends, all of it and nothing else. */
  lemma StripTakesSpaces(s: string)
    ensures exists front, back :: AllSpaces(front) && AllSpaces(back) && s == front + Strip(s) + back
    ensures Strip(s) != "" ==> !IsSpace(Strip(s)[0]) && !IsSpace(Strip(s)[|Strip(s)| - 1])
  {
    var front := FrontSpaces(s);
    var back := BackSpaces(DropSpaces(s));
    assert s == front + Strip(s) + back;
    assert Strip(s) != "" ==> Strip(s)[0] == DropSpaces(s)[0];
  }

  lemma {:induction false} FrontSpaces(s: string) returns (front: string)
    ensures AllSpaces(front) && s == front + DropSpaces(s)
  {
    if s != "" && IsSpace(s[0]) {
      var rest := FrontSpaces(s[1..]);
      front := [s[0]] + rest;
    } else {
      front := "";
    }
  }

  lemma {:induction false} BackSpaces(s: string) returns (back: string)
    ensures AllSpaces(back) && s == DropTrailingSpaces(s) + back
  {
    if s != "" && IsSpace(s[|s| - 1]) {
      var rest := BackSpaces(s[..|s| - 1]);
      back := rest + [s[|s| - 1]];
    } else {
      back := "";
    }
  }

  /** Length of the longest prefix without white space. */
  function WordLength(s: string): (n: nat)
    ensures n <= |s|
    ensures forall i | 0 <= i < n :: !IsSpace(s[i])
    ensures n < |s| ==> IsSpace(s[n])
  {
    if s == "" || IsSpace(s[0]) then 0 else 1 + WordLength(s[1..])
  }

  /** A token: not empty, no white space. */
  predicate IsWord(w: string) { w != "" && forall i | 0 <= i < |w| :: !IsSpace(w[i]) }

  predicate AllWords(ws: seq<string>) { forall i | 0 <= i < |ws| :: IsWord(ws[i]) }

  /** Python's `s.split()`. */
  function Words(s: string): (ws: seq<string>)
    ensures AllWords(ws)
    decreases |s|
  {
    var t := DropSpaces(s);
    if t == "" then [] else var n := WordLength(t); [t[..n]] + Words(t[n..])
  }

  /** White space holds no words; */
  lemma {:induction false} NoWords(s: string)
    requires AllSpaces(s)
    ensures DropSpaces(s) == "" && Words(s) == []
  {
    if s != "" { NoWords(s[1..]); }
  }

  /** and after any white space, a token up to the next white space or the end is the first of them. */
  lemma FirstWord(gap: string, w: string, rest: string)
    requires AllSpaces(gap) && IsWord(w) && (rest == "" || IsSpace(rest[0]))
    ensures Words(gap + w + rest) == [w] + Words(rest)
  {
    var s, t := gap + w + rest, w + rest;
    DropGap(gap, t);
    assert s == gap + t && t[0] == w[0];
    var n := WordLength(t);
    assert forall i | 0 <= i < |w| :: t[i] == w[i];
    assert rest != "" ==> t[|w|] == rest[0];
    assert n == |w| && t[..n] == w && t[n..] == rest;
  }

  lemma {:induction false} DropGap(gap: string, t: string)
    requires AllSpaces(gap) && t != "" && !IsSpace(t[0])
    ensures DropSpaces(gap + t) == t
  {
    if gap != "" {
      assert (gap + t)[1..] == gap[1..] + t;
      DropGap(gap[1..], t);
    } else {
      assert gap + t == t;
    }
  }

  /** Python's `" ".join(ws)`. */
  function Join(ws: seq<string>): string {
    if ws == [] then "" else if |ws| == 1 then ws[0] else ws[0] + " " + Join(ws[1..])
  }

  /** Splitting a joined list of tokens gives the list back. */
  lemma {:induction false} WordsOfJoin(ws: seq<string>)
    requires AllWords(ws)
    ensures Words(Join(ws)) == ws
  {
    if ws == [] {
    } else {
      var s := Join(ws);
      var w := ws[0];
      assert s[..|w|] == w;
      assert s[0] == w[0];
      var n := WordLength(s);
      assert forall i | 0 <= i < |w| :: s[i] == w[i];
      assert n >= |w|;
      if |ws| == 1 {
        assert s[n..] == "";
      } else {
        assert s[|w|] == ' ';
        assert s[n..] == " " + Join(ws[1..]);
        assert s[n..][1..] == Join(ws[1..]);
        WordsOfJoin(ws[1..]);
        assert Words(s[n..]) == Words(Join(ws[1..])) by {
          assert DropSpaces(s[n..]) == DropSpaces(Join(ws[1..]));
        }
      }
    }
  }
}
