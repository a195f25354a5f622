/** Whole-phrase matching on padded strings, and the status outcome built on it. */
module PhraseMatch {
  import opened Text

  /** The tokens of a user message. */
  function Tokens(text: string): (ts: seq<string>)
    ensures AllWords(ts)
  {
    Words(Lower(Strip(text)))
  }

  /** Case makes no difference to the tokens. */
  lemma TokensInAnyCase(text: string)
    ensures Tokens(Upper(text)) == Tokens(text)
  {
    UpperKeepsSpaces(text);
    assert Lower(Upper(Strip(text))) == Lower(Strip(text));
  }

  lemma UpperKeepsSpaces(s: string)
    ensures Strip(Upper(s)) == Upper(Strip(s))
  {
    UpperKeepsFront(s);
    UpperKeepsBack(DropSpaces(s));
  }

  lemma {:induction false} UpperKeepsFront(s: string)
    ensures DropSpaces(Upper(s)) == Upper(DropSpaces(s))
  {
    if s != "" && IsSpace(s[0]) {
      UpperKeepsFront(s[1..]);
      assert Upper(s)[1..] == Upper(s[1..]);
    }
  }

  lemma {:induction false} UpperKeepsBack(s: string)
    ensures DropTrailingSpaces(Upper(s)) == Upper(DropTrailingSpaces(s))
  {
    if s != "" && IsSpace(s[|s| - 1]) {
      UpperKeepsBack(s[..|s| - 1]);
      assert Upper(s)[..|s| - 1] == Upper(s[..|s| - 1]);
    }
  }

  function NormalizeUserText(text: string): string { Join(Tokens(text)) }

  function Padded(s: string): string { " " + s + " " }

  predicate ContainsAnyPhrase(text: string, phrases: set<string>) {
    var normalized := NormalizeUserText(text);
    normalized != ""
    && (normalized in phrases || exists p | p in phrases :: Contains(Padded(normalized), Padded(p)))
  }

  /** `run` is a contiguous part of `ts`. */
  predicate HasRun(ts: seq<string>, run: seq<string>) {
    exists k | 0 <= k <= |ts| :: RunAt(ts, run, k)
  }

  predicate RunAt(ts: seq<string>, run: seq<string>, k: nat) {
    k + |run| <= |ts| && ts[k..k + |run|] == run
  }

  // ---------------------------------------------------------------------------
  // Substrings of padded text are runs of tokens
  // ---------------------------------------------------------------------------

  /** Every token followed by one blank. */
  function Flat(ts: seq<string>): string {
    if ts == [] then "" else ts[0] + " " + Flat(ts[1..])
  }

  lemma {:induction false} PaddedIsFlat(ts: seq<string>)
    requires ts != []
    ensures Padded(Join(ts)) == " " + Flat(ts)
  {
    if |ts| > 1 {
      PaddedIsFlat(ts[1..]);
      calc {
        Padded(Join(ts));
        " " + ts[0] + Padded(Join(ts[1..]));
        " " + ts[0] + (" " + Flat(ts[1..]));
        " " + Flat(ts);
      }
    }
  }

  lemma {:induction false} FlatAppend(a: seq<string>, b: seq<string>)
    ensures Flat(a + b) == Flat(a) + Flat(b)
    ensures a != [] ==> Flat(a) != "" && Flat(a)[|Flat(a)| - 1] == ' '
  {
    if a == [] {
      assert a + b == b;
    } else {
      assert (a + b)[1..] == a[1..] + b;
      FlatAppend(a[1..], b);
      assert Flat(a + b) == a[0] + " " + (Flat(a[1..]) + Flat(b));
    }
  }

  /** A list whose flat form starts with that of `ps` starts with `ps`. */
  lemma {:induction false} FlatPrefix(ts: seq<string>, ps: seq<string>)
    requires AllWords(ts) && AllWords(ps)
    requires |Flat(ps)| <= |Flat(ts)| && Flat(ts)[..|Flat(ps)|] == Flat(ps)
    ensures |ps| <= |ts| && ts[..|ps|] == ps
  {
    if ps != [] {
      var ft, fp := Flat(ts), Flat(ps);
      assert fp[|ps[0]|] == ' ' == ft[|ps[0]|];
      assert forall i | 0 <= i < |ps[0]| :: fp[i] == ps[0][i] && ft[i] == fp[i];
      assert ts != [];
      assert forall i | 0 <= i < |ts[0]| :: ft[i] == ts[0][i];
      assert ft[|ts[0]|] == ' ';
      assert |ts[0]| == |ps[0]|;
      assert ts[0] == ps[0];
      var n := |ts[0]| + 1;
      assert ft[n..] == Flat(ts[1..]) && fp[n..] == Flat(ps[1..]);
      assert ft[n..][..|fp| - n] == fp[n..];
      FlatPrefix(ts[1..], ps[1..]);
      assert ts[..|ps|] == [ts[0]] + ts[1..][..|ps| - 1];
    }
  }

  /** A pattern starting with a blank cannot begin inside a word. */
  lemma OccurrencePastWord(pattern: string, t: string, rest: string, k: nat)
    requires IsWord(t) && pattern != "" && pattern[0] == ' ' && k > 0
    requires OccursAt(pattern, " " + t + rest, k)
    ensures k > |t| && OccursAt(pattern, rest, k - |t| - 1)
  {
    var h := " " + t + rest;
    assert h[k] == h[k..k + |pattern|][0] == ' ';
    assert forall i | 1 <= i <= |t| :: h[i] == t[i - 1];
    SliceOfRest(" " + t, rest, k, k + |pattern|);
  }

  lemma SliceOfRest(front: string, rest: string, i: nat, j: nat)
    requires |front| <= i <= j <= |front| + |rest|
    ensures (front + rest)[i..j] == rest[i - |front|..j - |front|]
  {}

  lemma FlatSplit(ts: seq<string>)
    requires ts != []
    ensures " " + Flat(ts) == " " + ts[0] + (" " + Flat(ts[1..]))
  {}

  /** An occurrence past the first token lies in the rest of the text. */
  lemma OccurrenceShifts(ts: seq<string>, ps: seq<string>, k: nat)
    requires AllWords(ts) && ts != [] && k > 0
    requires OccursAt(" " + Flat(ps), " " + Flat(ts), k)
    ensures k > |ts[0]| && OccursAt(" " + Flat(ps), " " + Flat(ts[1..]), k - |ts[0]| - 1)
  {
    FlatSplit(ts);
    OccurrencePastWord(" " + Flat(ps), ts[0], " " + Flat(ts[1..]), k);
  }

  lemma RunInRest(ts: seq<string>, ps: seq<string>)
    requires ts != [] && HasRun(ts[1..], ps)
    ensures HasRun(ts, ps)
  {
    var j :| 0 <= j <= |ts| - 1 && RunAt(ts[1..], ps, j);
    assert ts[j + 1..j + 1 + |ps|] == ts[1..][j..j + |ps|];
    assert RunAt(ts, ps, j + 1);
  }

  lemma {:induction false} OccurrenceIsRun(ts: seq<string>, ps: seq<string>, k: nat)
    requires AllWords(ts) && AllWords(ps) && ps != []
    requires OccursAt(" " + Flat(ps), " " + Flat(ts), k)
    ensures HasRun(ts, ps)
  {
    if k == 0 {
      var ht, hp := " " + Flat(ts), " " + Flat(ps);
      assert ht[..|hp|][1..] == ht[1..][..|hp| - 1] == Flat(ps);
      FlatPrefix(ts, ps);
      assert RunAt(ts, ps, 0);
    } else {
      OccurrenceShifts(ts, ps, k);
      OccurrenceIsRun(ts[1..], ps, k - |ts[0]| - 1);
      RunInRest(ts, ps);
    }
  }

  lemma InnerOccurs(x: string, y: string, z: string)
    requires x == "" || x[|x| - 1] == ' '
    ensures Contains(" " + (x + (y + z)), " " + y)
  {
    var h, n := " " + (x + (y + z)), |x|;
    assert h[n] == ' ' && |h| == 1 + n + |y| + |z|;
    forall i | 0 <= i < |y| + 1 ensures h[n..n + (|y| + 1)][i] == (" " + y)[i] {
      assert h[n..n + (|y| + 1)][i] == h[n + i];
    }
    assert OccursAt(" " + y, h, n);
  }

  lemma RunOccurs(ts: seq<string>, ps: seq<string>, k: nat)
    requires RunAt(ts, ps, k)
    ensures Contains(" " + Flat(ts), " " + Flat(ps))
  {
    var a, b := ts[..k], ts[k + |ps|..];
    assert ts == a + (ps + b);
    FlatAppend(a, ps + b);
    FlatAppend(ps, b);
    InnerOccurs(Flat(a), Flat(ps), Flat(b));
  }

  /** For token lists, the padded text contains the padded phrase exactly when the tokens contain its tokens. */
  lemma PaddedSubstringIffRun(ts: seq<string>, ps: seq<string>)
    requires AllWords(ts) && AllWords(ps) && ts != [] && ps != []
    ensures Contains(Padded(Join(ts)), Padded(Join(ps))) <==> HasRun(ts, ps)
  {
    PaddedIsFlat(ts);
    PaddedIsFlat(ps);
    if Contains(" " + Flat(ts), " " + Flat(ps)) {
      var k :| 0 <= k <= |Flat(ts)| + 1 && OccursAt(" " + Flat(ps), " " + Flat(ts), k);
      OccurrenceIsRun(ts, ps, k);
    }
    if HasRun(ts, ps) {
      var k :| 0 <= k <= |ts| && RunAt(ts, ps, k);
      RunOccurs(ts, ps, k);
    }
  }

  /** A phrase in the form the constant tables use: its own tokens joined by single blanks. */
  ghost predicate IsNormalPhrase(p: string) { Words(p) != [] && p == Join(Words(p)) }

  /** The string test is a token test: some phrase's tokens are a contiguous run of the text's tokens. */
  lemma PhraseMatchIsTokenMatch(text: string, phrases: set<string>)
    requires forall p | p in phrases :: IsNormalPhrase(p)
    ensures ContainsAnyPhrase(text, phrases) <==> exists p | p in phrases :: HasRun(Tokens(text), Words(p))
  {
    var ts := Tokens(text);
    var n := NormalizeUserText(text);
    WordsOfJoin(ts);
    assert n == "" <==> ts == [];
    forall p | p in phrases
      ensures ts != [] ==> (Contains(Padded(n), Padded(p)) <==> HasRun(ts, Words(p)))
      ensures n == p ==> HasRun(ts, Words(p))
      ensures ts == [] ==> !HasRun(ts, Words(p))
    {
      if ts != [] { PaddedSubstringIffRun(ts, Words(p)); }
      if n == p { assert RunAt(ts, Words(p), 0); }
    }
  }
}
