/** Validation of a candidate status against the words of the user's message. */
module StatusOutcome {
  import opened Options
  import opened Text
  import opened PhraseMatch

  /** Values `_normalize_cadence_status` may return. */
  datatype CadenceStatus = Todo | InProgress | InReview | Done | NoChange

  datatype ParseStatus = Resolved | Ambiguous | Invalid

  datatype ParseOutcome = ParseOutcome(
    status: ParseStatus, reasonCode: string, confidence: real, requiresClarification: bool,
    payloadStatus: CadenceStatus, comment: string)

  const TERMINAL_PHRASES: set<string> := {"done", "finished", "completed", "complete", "closed", "shipped"}

  const ACTIVE_PHRASES: set<string> :=
    {"working on", "in progress", "started", "wip", "in review", "review", "testing", "qa"}

  const BLOCKED_PHRASES: set<string> := {"on hold", "paused", "blocked", "waiting"}

  const NON_TERMINAL_PHRASES: set<string> := ACTIVE_PHRASES + BLOCKED_PHRASES

  const OPEN_STATUSES: set<CadenceStatus> := {Todo, InProgress, InReview}

  /** `candidate` is the normalised candidate status, None when no alias maps it. */
  function BuildStatusOutcome(text: string, candidate: Option<CadenceStatus>, comment: string, fromLlm: bool): ParseOutcome {
    var terminal := ContainsAnyPhrase(text, TERMINAL_PHRASES);
    var nonTerminal := ContainsAnyPhrase(text, NON_TERMINAL_PHRASES);
    if terminal && nonTerminal then
      ParseOutcome(Ambiguous, "ambiguous_mixed_signals", 0.2, true,
                   if candidate.Some? then candidate.value else NoChange, Strip(comment))
    else if candidate.None? then
      ParseOutcome(Invalid, "invalid_input", 0.0, true, NoChange, Strip(comment))
    else if terminal && !nonTerminal && candidate.value in OPEN_STATUSES then
      ParseOutcome(Ambiguous, "ambiguous_mixed_signals", 0.2, true, candidate.value, Strip(comment))
    else if nonTerminal && !terminal && candidate.value == Done then
      ParseOutcome(Ambiguous, "ambiguous_mixed_signals", 0.2, true, candidate.value, Strip(comment))
    else
      ParseOutcome(Resolved, "resolved", if fromLlm then 0.9 else 0.75, false, candidate.value, Strip(comment))
  }

  lemma OneWordPhrase(w: string)
    requires IsWord(w)
    ensures IsNormalPhrase(w)
  {
    WordsOfJoin([w]);
  }

  lemma TwoWordPhrase(v: string, w: string)
    requires IsWord(v) && IsWord(w)
    ensures IsNormalPhrase(v + " " + w)
  {
    assert Join([v, w]) == v + " " + w;
    WordsOfJoin([v, w]);
  }

  lemma TerminalPhrasesAreNormal()
    ensures forall p | p in TERMINAL_PHRASES :: IsNormalPhrase(p)
  {
    forall p | p in TERMINAL_PHRASES ensures IsNormalPhrase(p) { OneWordPhrase(p); }
  }

  lemma PhraseOfTwoWords(p: string, k: nat)
    requires k < |p| && p[k] == ' ' && IsWord(p[..k]) && IsWord(p[k + 1..])
    ensures IsNormalPhrase(p)
  {
    assert p == p[..k] + " " + p[k + 1..];
    TwoWordPhrase(p[..k], p[k + 1..]);
  }

  lemma TwoWordActive(p: string)
    requires p in {"working on", "in progress", "in review"}
    ensures IsNormalPhrase(p)
  {
    PhraseOfTwoWords(p, if p == "working on" then 7 else 2);
  }

  lemma OneWordActive(p: string)
    requires p in {"started", "wip", "review", "testing", "qa"}
    ensures IsNormalPhrase(p)
  {
    OneWordPhrase(p);
  }

  lemma ActivePhrasesAreNormal()
    ensures forall p | p in ACTIVE_PHRASES :: IsNormalPhrase(p)
  {
    forall p | p in ACTIVE_PHRASES ensures IsNormalPhrase(p) {
      if p in {"working on", "in progress", "in review"} { TwoWordActive(p); } else { OneWordActive(p); }
    }
  }

  lemma BlockedPhrasesAreNormal()
    ensures forall p | p in BLOCKED_PHRASES :: IsNormalPhrase(p)
  {
    forall p | p in BLOCKED_PHRASES ensures IsNormalPhrase(p) {
      if p == "on hold" { PhraseOfTwoWords(p, 2); } else { OneWordPhrase(p); }
    }
  }

  lemma UnionOfNormal(a: set<string>, b: set<string>)
    requires forall p | p in a :: IsNormalPhrase(p)
    requires forall p | p in b :: IsNormalPhrase(p)
    ensures forall p | p in a + b :: IsNormalPhrase(p)
  {}

  lemma NonTerminalPhrasesAreNormal()
    ensures forall p | p in NON_TERMINAL_PHRASES :: IsNormalPhrase(p)
  {
    ActivePhrasesAreNormal();
    BlockedPhrasesAreNormal();
    UnionOfNormal(ACTIVE_PHRASES, BLOCKED_PHRASES);
  }

  /** Some phrase's words occur one after the other among the words of the text. */
  predicate Says(text: string, phrases: set<string>) {
    exists p | p in phrases :: HasRun(Tokens(text), Words(p))
  }

  /** The phrase tests of the code look at the words of the text. */
  lemma SignalsAreWords(text: string)
    ensures ContainsAnyPhrase(text, TERMINAL_PHRASES) == Says(text, TERMINAL_PHRASES)
    ensures ContainsAnyPhrase(text, NON_TERMINAL_PHRASES) == Says(text, NON_TERMINAL_PHRASES)
  {
    TerminalPhrasesAreNormal();
    PhraseMatchIsTokenMatch(text, TERMINAL_PHRASES);
    NonTerminalPhrasesAreNormal();
    PhraseMatchIsTokenMatch(text, NON_TERMINAL_PHRASES);
  }

  /**
   A candidate is accepted exactly when it is a known status and the words of the text do not contradict it:
   no mixture of terminal and non-terminal phrases, no open status for a text with terminal phrases only,
   not done for a text with non-terminal phrases only.  What is accepted is the candidate itself.
   */
  lemma ResolvedIffTextAgrees(text: string, candidate: Option<CadenceStatus>, comment: string, fromLlm: bool)
    ensures var r := BuildStatusOutcome(text, candidate, comment, fromLlm);
            var finished, ongoing := Says(text, TERMINAL_PHRASES), Says(text, NON_TERMINAL_PHRASES);
            && (r.status == Resolved <==>
                  && candidate.Some?
                  && !(finished && ongoing)
                  && !(finished && candidate.value in OPEN_STATUSES)
                  && !(ongoing && candidate.value == Done))
            && (r.status == Resolved ==> r.payloadStatus == candidate.value && !r.requiresClarification
                                         && r.confidence == (if fromLlm then 0.9 else 0.75))
            && (r.status != Resolved ==> r.requiresClarification && r.confidence < 0.75)
            && r.comment == Strip(comment)
  {
    SignalsAreWords(text);
  }

  /**
   What is not accepted is invalid exactly if it is no known status and the text is no mixture; everything else
   is ambiguous, with the candidate kept for the question, or "no change" for want of one.
   */
  lemma RefusalKind(text: string, candidate: Option<CadenceStatus>, comment: string, fromLlm: bool)
    ensures var r := BuildStatusOutcome(text, candidate, comment, fromLlm);
            var mixed := Says(text, TERMINAL_PHRASES) && Says(text, NON_TERMINAL_PHRASES);
            && (r.status == Invalid <==> candidate.None? && !mixed)
            && (r.status == Invalid <==> r.reasonCode == "invalid_input") && (r.status == Invalid ==> r.confidence == 0.0)
            && (r.status == Ambiguous <==> r.reasonCode == "ambiguous_mixed_signals")
            && (r.status == Ambiguous ==> r.confidence == 0.2)
            && (r.status == Resolved <==> r.reasonCode == "resolved")
            && r.payloadStatus == if candidate.Some? then candidate.value else NoChange
  {
    SignalsAreWords(text);
  }
}
