/**
 Due dates inferred from a target, and weekday phrases, in one time zone with a fixed offset.

 Moments are whole microseconds of local time and days whole numbers, day 0 being a Monday, so that a day's
 weekday is its remainder by seven as in Python's `weekday()`.
 */
module DueDates {
  import opened Options
  import opened Text

  const SECOND := 1_000_000
  const MINUTE := 60 * SECOND
  const HOUR := 60 * MINUTE
  const DAY := 24 * HOUR

  function DayOf(t: int): int { t / DAY }

  /** Five in the afternoon of a day. */
  function FiveOn(day: int): int { day * DAY + 17 * HOUR }

  /** In seconds, a day has 86400, and five o'clock comes 61200 into it. */
  lemma FiveOClock(day: int)
    ensures FiveOn(day) == (day * 86_400 + 61_200) * 1_000_000 && DayOf(FiveOn(day)) == day
  {}

  function Weekday(day: int): (w: nat)
    ensures w < 7
  {
    day % 7
  }

  function MondayOf(day: int): int { day - Weekday(day) }

  predicate IsBusinessDay(day: int) { Weekday(day) < 5 }

  /** `_previous_business_day`: the latest business day before the given day. */
  method PreviousBusinessDay(day: int) returns (candidate: int)
    ensures IsBusinessDay(candidate) && day - 3 <= candidate < day
    ensures forall d | candidate < d < day :: !IsBusinessDay(d)
  {
    candidate := day - 1;
    while Weekday(candidate) >= 5
      invariant day - 3 <= candidate < day
      invariant forall d | candidate < d < day :: !IsBusinessDay(d)
      invariant Weekday(candidate) >= 5 ==> candidate >= day - 2
      decreases Weekday(candidate)
    {
      candidate := candidate - 1;
    }
  }

  /** The latest business day before `day`, by its weekday. */
  function BusinessDayBefore(day: int): int {
    if Weekday(day) == 0 then day - 3 else if Weekday(day) == 6 then day - 2 else day - 1
  }

  lemma BusinessDayUnique(day: int, candidate: int)
    requires IsBusinessDay(candidate) && candidate < day && forall d | candidate < d < day :: !IsBusinessDay(d)
    ensures candidate == BusinessDayBefore(day)
  {
    var b := BusinessDayBefore(day);
    assert IsBusinessDay(b) && b < day;
  }

  const PREP_TOKENS: set<string> := {
    "invite", "schedule", "book", "prepare", "setup", "set up", "share", "distribute", "send", "arrange", "coordinate",
    "organize", "organise", "draft"
  }

  const DEADLINE_TOKENS: set<string> := {
    "finish", "complete", "review", "submit", "deliver", "close", "resolve", "finalize", "finalise", "publish", "merge",
    "approve", "signoff", "sign off"
  }

  predicate Mentions(text: string, tokens: set<string>) { exists token | token in tokens :: Contains(Lower(text), token) }

  /** Case makes no difference to what a text mentions. */
  lemma MentionsInAnyCase(text: string, tokens: set<string>)
    ensures Mentions(Upper(text), tokens) <==> Mentions(text, tokens)
  {
    assert Lower(Upper(text)) == Lower(text);
  }

  datatype Due = Due(kind: string, date: Option<int>)

  const EXPLICIT_KINDS: set<string> := {"today", "this_week", "by_date"}

  /** The action is preparation for its target and nothing says it is the deadline itself. */
  predicate IsPreparation(text: string) { Mentions(text, PREP_TOKENS) && !Mentions(text, DEADLINE_TOKENS) }

  /** The slot first tried: five o'clock on the previous business day, or today when that day is over. */
  function Slot(now: int, target: int): int {
    var day := BusinessDayBefore(DayOf(target));
    FiveOn(if day < DayOf(now) then DayOf(now) else day)
  }

  /** The preparation branch of `infer_due`, reassigning its candidate as the code does. */
  method InferPreparation(now: int, target: int) returns (due: int)
    ensures due >= now
    ensures due < target <==> now + 30 * MINUTE < target || now <= Slot(now, target) < target
    ensures FiveOn(BusinessDayBefore(DayOf(target))) >= now ==> due == FiveOn(BusinessDayBefore(DayOf(target))) && due < target
    ensures now <= Slot(now, target) < target ==> due == Slot(now, target)
    ensures Slot(now, target) < now && now + 30 * MINUTE < target ==> due == now + 30 * MINUTE
    ensures due >= target ==> due == now + 30 * MINUTE
    ensures Slot(now, target) >= now && Slot(now, target) >= target ==>
              due == if now + HOUR > target then now + 30 * MINUTE else target - 30 * MINUTE
  {
    var day := PreviousBusinessDay(DayOf(target));
    BusinessDayUnique(DayOf(target), day);
    if day < DayOf(now) { day := DayOf(now); }
    due := FiveOn(day);
    assert due == Slot(now, target);
    if due < now { due := now + 30 * MINUTE; }
    if due >= target {
      due := if now + 30 * MINUTE > target - 30 * MINUTE then now + 30 * MINUTE else target - 30 * MINUTE;
    }
  }

  /**
   `infer_due`.  Explicit input wins; a target alone is the deadline unless the action reads as preparation,
   and then the due date is the one above.
   */
  method InferDue(text: string, explicitKind: string, explicitDate: Option<int>, target: Option<int>, now: int)
    returns (due: Due)
    ensures Lower(Strip(explicitKind)) in EXPLICIT_KINDS ==> due == Due(Lower(Strip(explicitKind)), explicitDate)
    ensures Lower(Strip(explicitKind)) !in EXPLICIT_KINDS && explicitDate.Some? ==> due == Due("by_date", explicitDate)
    ensures Lower(Strip(explicitKind)) !in EXPLICIT_KINDS && explicitDate.None? ==>
              && (target.None? ==> due == Due("no_due_date", None))
              && (target.Some? && !IsPreparation(text) ==> due == Due("by_date", target))
              && (target.Some? && IsPreparation(text) ==>
                    && due.kind == "by_date" && due.date.Some? && due.date.value >= now
                    && (now + 30 * MINUTE < target.value ==> due.date.value < target.value)
                    && (FiveOn(BusinessDayBefore(DayOf(target.value))) >= now ==>
                          due.date.value == FiveOn(BusinessDayBefore(DayOf(target.value)))))
  {
    var kind := Lower(Strip(explicitKind));
    if kind in EXPLICIT_KINDS { return Due(kind, explicitDate); }
    if explicitDate.Some? { return Due("by_date", explicitDate); }
    if target.None? { return Due("no_due_date", None); }
    if Mentions(text, DEADLINE_TOKENS) { return Due("by_date", target); }
    if Mentions(text, PREP_TOKENS) {
      var date := InferPreparation(now, target.value);
      return Due("by_date", Some(date));
    }
    due := Due("by_date", target);
  }

  // ---------------------------------------------------------------------------
  // Weekday phrases
  // ---------------------------------------------------------------------------

  const WEEKDAYS: seq<string> := ["monday", "tuesday", "wednesday", "thursday", "friday", "saturday", "sunday"]

  /** Position of a name in a list. */
  function Position(names: seq<string>, name: string): (w: Option<nat>)
    ensures w.Some? ==> w.value < |names| && names[w.value] == name
    ensures w.None? ==> name !in names
  {
    if names == [] then None
    else if names[0] == name then Some(0)
    else match Position(names[1..], name) case None => None case Some(w) => Some(w + 1)
  }

  /** `_WEEKDAY_MAP.get`. */
  function WeekdayNamed(name: string): Option<nat> { Position(WEEKDAYS, name) }

  /** Position of the first blank from `k` on. */
  function BlankFrom(s: string, k: nat): (n: nat)
    requires k <= |s|
    ensures k <= n <= |s| && (n < |s| ==> s[n] == ' ') && forall i | k <= i < n :: s[i] != ' '
    decreases |s| - k
  {
    if k == |s| || s[k] == ' ' then k else BlankFrom(s, k + 1)
  }

  /** Position of the first blank. */
  function FirstBlank(s: string): (n: nat)
    ensures n <= |s| && (n < |s| ==> s[n] == ' ') && forall i | 0 <= i < n :: s[i] != ' '
  {
    BlankFrom(s, 0)
  }

  /** A token split at its first blank, if it has one. */
  datatype Parts = One(word: string) | Two(prefix: string, name: string)

  function PartsOf(token: string): Parts {
    var blank := FirstBlank(token);
    if blank < |token| then Two(token[..blank], token[blank + 1..]) else One(token)
  }

  function DayOfParts(parts: Parts, today: int): Option<int> {
    match parts
    case One("today") => Some(today)
    case One("tomorrow") => Some(today + 1)
    case One(name) =>
      (match WeekdayNamed(name)
       case None => None
       case Some(w) => Some(Forward(today, w)))
    case Two(prefix, name) =>
      match WeekdayNamed(name)
      case None => None
      case Some(w) =>
        var delta := w - Weekday(today);
        Some(today + (if prefix == "next" then delta + 7 else if prefix == "this" && delta < 0 then delta + 7 else delta))
  }

  /**
   The part of `_parse_date_phrase` after a relative token was found: the day it means, seen from `today`.  The
   code compares the token with the single words first, which makes no difference: they hold no blank.
   */
  function ParseToken(token: string, today: int): Option<int> { DayOfParts(PartsOf(token), today) }

  /** The first day from `today` on with the given weekday. */
  predicate FirstFrom(today: int, w: nat, r: int) {
    today <= r && Weekday(r) == w && forall d | today <= d < r :: Weekday(d) != w
  }

  function Forward(today: int, w: nat): int {
    var delta := w - Weekday(today);
    today + (if delta < 0 then delta + 7 else delta)
  }

  lemma ForwardIsFirst(today: int, w: nat)
    requires w < 7
    ensures FirstFrom(today, w, Forward(today, w))
  {
    var r := Forward(today, w);
    ShiftedWeekday(today, w, r - today);
    forall d | today <= d < r ensures Weekday(d) != w { NotEarlier(today, w, d - today); }
  }

  lemma NotEarlier(today: int, w: nat, k: nat)
    requires w < 7 && k < Forward(today, w) - today
    ensures Weekday(today + k) != w
  {
    ShiftedWeekday(today, (Weekday(today) + k) % 7, k);
  }

  /** The two words that are no names. */
  lemma TodayAndTomorrow(today: int)
    ensures ParseToken("today", today) == Some(today) && ParseToken("tomorrow", today) == Some(today + 1)
  {
    BlankAt("today", 5);
    BlankAt("tomorrow", 8);
  }

  /** The name alone: the first such day from today on. */
  lemma BareWeekday(w: nat, today: int)
    requires w < 7
    ensures var r := ParseToken(WEEKDAYS[w], today); r.Some? && FirstFrom(today, w, r.value)
  {
    NamesHaveNoBlank(w);
    BlankAt(WEEKDAYS[w], |WEEKDAYS[w]|);
    NamedIs(w);
    ForwardIsFirst(today, w);
  }

  // The recogniser takes any run of white space between the two words; the parser splits at the first blank.

  predicate WhiteSpace(ws: string) { ws != "" && forall i | 0 <= i < |ws| :: IsSpace(ws[i]) }

  function Spoken(prefix: string, ws: string, w: nat): string
    requires w < 7
  {
    prefix + ws + WEEKDAYS[w]
  }

  /** The only blank of the run is its last character. */
  predicate BlankOnlyAtEnd(ws: string) { ws != "" && ws[|ws| - 1] == ' ' && ' ' !in ws[..|ws| - 1] }

  /** The day of `today`'s own week, Monday to Sunday, with the given weekday. */
  function OfThisWeek(today: int, w: nat): int { MondayOf(today) + w }

  predicate NoBlank(s: string) { forall i | 0 <= i < |s| :: s[i] != ' ' }

  /** Where the first blank stands in two words with white space between them. */
  lemma SplitAtBlank(prefix: string, ws: string, name: string)
    requires NoBlank(prefix) && NoBlank(name)
    ensures var n := FirstBlank(ws);
            PartsOf(prefix + ws + name) ==
            if n == |ws| then One(prefix + ws + name) else Two(prefix + ws[..n], ws[n + 1..] + name)
  {
    PartsBefore(ws, name);
    PartsAfter(prefix, ws + name);
    assert prefix + ws + name == prefix + (ws + name);
  }

  lemma PartsBefore(ws: string, name: string)
    requires NoBlank(name)
    ensures PartsOf(ws + name) ==
            match PartsOf(ws) case One(_) => One(ws + name) case Two(front, back) => Two(front, back + name)
  {
    var n := FirstBlank(ws);
    BlankAt(ws + name, if n == |ws| then |ws + name| else n);
    if n < |ws| { assert (ws + name)[..n] == ws[..n] && (ws + name)[n + 1..] == ws[n + 1..] + name; }
  }

  lemma PartsAfter(prefix: string, rest: string)
    requires NoBlank(prefix)
    ensures PartsOf(prefix + rest) ==
            match PartsOf(rest) case One(_) => One(prefix + rest) case Two(front, back) => Two(prefix + front, back)
  {
    var n := FirstBlank(rest);
    BlankAt(prefix + rest, |prefix| + n);
    if n < |rest| {
      assert (prefix + rest)[..|prefix| + n] == prefix + rest[..n] && (prefix + rest)[|prefix| + n + 1..] == rest[n + 1..];
    }
  }

  /** Two words without a blank between them are none of the single words. */
  lemma UnsplitIsUnknown(prefix: string, ws: string, w: nat, today: int)
    requires prefix in {"next", "this"} && WhiteSpace(ws) && w < 7
    ensures DayOfParts(One(Spoken(prefix, ws, w)), today).None?
  {
    var token := Spoken(prefix, ws, w);
    assert token[4] == ws[0] && token[0] == prefix[0] && token[1] == prefix[1];
  }

  /** A name with white space before it is none of the names. */
  lemma PaddedIsUnknown(first: string, ws: string, w: nat, today: int)
    requires WhiteSpace(ws) && w < 7
    ensures DayOfParts(Two(first, ws + WEEKDAYS[w]), today).None?
  {
    assert (ws + WEEKDAYS[w])[0] == ws[0];
  }

  /** The day for a name and whatever stands before the blank: that of the present week, or a week later. */
  function DayNamed(first: string, w: nat, today: int): int {
    if first == "next" then OfThisWeek(today, w) + 7 else if first == "this" then Forward(today, w) else OfThisWeek(today, w)
  }

  lemma NameIsKnown(first: string, w: nat, today: int)
    requires w < 7
    ensures DayOfParts(Two(first, WEEKDAYS[w]), today) == Some(DayNamed(first, w, today))
  {
    NamedIs(w);
  }

  lemma EndIffFirst(ws: string)
    requires ws != ""
    ensures BlankOnlyAtEnd(ws) <==> FirstBlank(ws) + 1 == |ws|
  {
    var n := FirstBlank(ws);
    if n + 1 < |ws| { assert ws[..|ws| - 1][n] == ' '; }
  }

  lemma UnderstoodAtEnd(prefix: string, ws: string, w: nat, today: int)
    requires prefix in {"next", "this"} && w < 7 && FirstBlank(ws) + 1 == |ws|
    ensures ParseToken(Spoken(prefix, ws, w), today) ==
            Some(if ws == " " then DayNamed(prefix, w, today) else OfThisWeek(today, w))
  {
    var n := FirstBlank(ws);
    NamesHaveNoBlank(w);
    SplitAtBlank(prefix, ws, WEEKDAYS[w]);
    assert ws[n + 1..] + WEEKDAYS[w] == WEEKDAYS[w];
    NameIsKnown(prefix + ws[..n], w, today);
    if n == 0 {
      assert ws == " " && prefix + ws[..n] == prefix;
    } else {
      assert |prefix + ws[..n]| > 4;
    }
  }

  lemma UnknownElsewhere(prefix: string, ws: string, w: nat, today: int)
    requires prefix in {"next", "this"} && WhiteSpace(ws) && w < 7 && FirstBlank(ws) + 1 != |ws|
    ensures ParseToken(Spoken(prefix, ws, w), today).None?
  {
    var n := FirstBlank(ws);
    NamesHaveNoBlank(w);
    SplitAtBlank(prefix, ws, WEEKDAYS[w]);
    if n == |ws| {
      UnsplitIsUnknown(prefix, ws, w, today);
    } else {
      PaddedIsUnknown(prefix + ws[..n], ws[n + 1..], w, today);
    }
  }

  /**
   What the parser makes of any white space between the words: the phrase is understood exactly if the only
   blank is the last character.  With other white space before that blank the prefix is not recognised, and the
   day is that of the present week.
   */
  lemma UnderstoodIff(prefix: string, ws: string, w: nat, today: int)
    requires prefix in {"next", "this"} && WhiteSpace(ws) && w < 7
    ensures var r := ParseToken(Spoken(prefix, ws, w), today);
            && (r.Some? <==> BlankOnlyAtEnd(ws))
            && (r.Some? ==> r.value == if ws == " " then DayNamed(prefix, w, today) else OfThisWeek(today, w))
  {
    EndIffFirst(ws);
    if BlankOnlyAtEnd(ws) {
      UnderstoodAtEnd(prefix, ws, w, today);
    } else {
      UnknownElsewhere(prefix, ws, w, today);
    }
  }

  /** What the words promise: "next" the named day of the following week, "this" the first such day from today on. */
  predicate Promised(prefix: string, w: nat, today: int, r: int) {
    if prefix == "next" then Weekday(r) == w && MondayOf(r) == MondayOf(today) + 7 else FirstFrom(today, w, r)
  }

  /** Which of the possible days are the promised ones. */
  lemma PromiseOf(prefix: string, w: nat, today: int)
    requires prefix in {"next", "this"} && w < 7
    ensures Promised(prefix, w, today, DayNamed(prefix, w, today)) && DayNamed(prefix, w, today) >= today
    ensures Promised(prefix, w, today, OfThisWeek(today, w)) <==> prefix == "this" && w >= Weekday(today)
  {
    if prefix == "this" { ForwardIsFirst(today, w); }
    ShiftedWeekday(today, w, w - Weekday(today));
    ShiftedWeekday(today, w, w - Weekday(today) + 7);
  }

  /**
   The day understood is the promised one exactly for a single blank, or for "this" when that day of the week
   is still to come; and it lies in the past exactly otherwise, once the day of the week is over.
   */
  lemma PromiseKeptIff(prefix: string, ws: string, w: nat, today: int)
    requires prefix in {"next", "this"} && WhiteSpace(ws) && w < 7 && BlankOnlyAtEnd(ws)
    ensures var r := ParseToken(Spoken(prefix, ws, w), today);
            && r.Some?
            && (Promised(prefix, w, today, r.value) <==> ws == " " || (prefix == "this" && w >= Weekday(today)))
            && (r.value < today <==> ws != " " && w < Weekday(today))
  {
    UnderstoodIff(prefix, ws, w, today);
    PromiseOf(prefix, w, today);
  }

  /** With "this" and one blank: the first such day from today on. */
  lemma ThisWeekday(w: nat, today: int)
    requires w < 7
    ensures var r := ParseToken("this " + WEEKDAYS[w], today); r.Some? && FirstFrom(today, w, r.value)
  {
    assert Spoken("this", " ", w) == "this " + WEEKDAYS[w];
    PromiseKeptIff("this", " ", w, today);
  }

  /** With "next" and one blank: the named day of the following week, Monday to Sunday. */
  lemma NextWeekday(w: nat, today: int)
    requires w < 7
    ensures var r := ParseToken("next " + WEEKDAYS[w], today);
            && r.Some? && Weekday(r.value) == w && MondayOf(r.value) == MondayOf(today) + 7
  {
    assert Spoken("next", " ", w) == "next " + WEEKDAYS[w];
    PromiseKeptIff("next", " ", w, today);
  }

  /** Two blanks between the words defeat the lookup, though the token was recognised. */
  lemma DoubleBlankFails(w: nat, today: int)
    requires w < 7
    ensures ParseToken("next  " + WEEKDAYS[w], today).None?
  {
    assert Spoken("next", "  ", w) == "next  " + WEEKDAYS[w];
    assert "  "[0] == ' ' && ' ' in "  "[..1];
    UnderstoodIff("next", "  ", w, today);
  }

  /** On a Saturday, "next friday" wrapped before its second word yields yesterday, "this monday" the Monday gone by. */
  lemma WrappedLineGoesBack()
    ensures ParseToken(Spoken("next", "\n ", 4), 5) == Some(4)
    ensures ParseToken(Spoken("this", "\n ", 0), 5) == Some(0)
  {
    var ws := "\n ";
    assert WhiteSpace(ws) && BlankOnlyAtEnd(ws);
    assert |ws| == 2 && Weekday(5) == 5;
    UnderstoodIff("next", ws, 4, 5);
    UnderstoodIff("this", ws, 0, 5);
  }

  lemma NamesHaveNoBlank(w: nat)
    requires w < 7
    ensures forall i | 0 <= i < |WEEKDAYS[w]| :: WEEKDAYS[w][i] != ' '
    ensures WEEKDAYS[w] != "today" && WEEKDAYS[w] != "tomorrow"
  {
    assert WEEKDAYS[w][|WEEKDAYS[w]| - 3..] == "day";
  }

  lemma NamedIs(w: nat)
    requires w < 7
    ensures WeekdayNamed(WEEKDAYS[w]) == Some(w)
  {
    assert WEEKDAYS[0][0] != WEEKDAYS[1][0] && WEEKDAYS[0][0] != WEEKDAYS[2][0];
  }

  /** The first blank of a string is where everything before is not blank. */
  lemma BlankAt(s: string, n: nat)
    requires n <= |s| && (n < |s| ==> s[n] == ' ') && forall i | 0 <= i < n :: s[i] != ' '
    ensures FirstBlank(s) == n
  {}

  lemma ShiftedWeekday(today: int, w: nat, shift: int)
    requires w < 7 && -7 < shift < 14 && (shift - (w - Weekday(today))) % 7 == 0
    ensures Weekday(today + shift) == w
  {}
}
