/**
 The daily summary of one check-in run: who gets to store and announce it when several sessions finish at
 once, and the attendance it reports.
 */
module DailySummary {
  import opened Options
  import opened Text

  // ---------------------------------------------------------------------------
  // Finalisers racing
  // ---------------------------------------------------------------------------

  /** Where one finaliser stands; `readAt` is the moment of its read of all source sessions. */
  datatype Phase = Idle | NoneStored | AllDone(readAt: nat) | Assembled(readAt: nat) | Stored(readAt: nat) | Announced(readAt: nat)
                 | Stopped

  /** `past` lists, moment by moment, which source sessions were completed; its last entry is the present. */
  datatype State = State(past: seq<seq<bool>>, stored: bool, stores: nat, announcements: nat, finalisers: seq<Phase>)

  datatype Action =
    | CheckStored(i: nat)
    | ReadSources(i: nat, indexEmpty: bool)
    | Assemble(i: nat)
    | Upsert(i: nat)
    | Announce(i: nat, delivered: bool)
    | SessionsChange(now: seq<bool>)

  predicate AllCompleted(sessions: seq<bool>) { forall k | 0 <= k < |sessions| :: sessions[k] }

  function Present(s: State): seq<bool>
    requires s.past != []
  {
    s.past[|s.past| - 1]
  }

  function Put(s: State, i: nat, p: Phase): State
    requires i < |s.finalisers|
  {
    s.(finalisers := s.finalisers[i := p])
  }

  /** One step of `try_generate_daily_summary` and `generate_daily_summary`, or of the sessions themselves. */
  function Fire(s: State, a: Action): State
    requires s.past != []
  {
    if a.SessionsChange? then s.(past := s.past + [a.now])
    else if a.i >= |s.finalisers| then s
    else
      match a
      case CheckStored(i) =>
        if s.finalisers[i] != Idle then s else Put(s, i, if s.stored then Stopped else NoneStored)
      case ReadSources(i, indexEmpty) =>
        if s.finalisers[i] != NoneStored then s
        else if (Present(s) == [] && indexEmpty) || !AllCompleted(Present(s)) then Put(s, i, Stopped)
        else Put(s, i, AllDone(|s.past| - 1))
      case Assemble(i) =>
        if !s.finalisers[i].AllDone? then s
        else Put(s, i, if Present(s) == [] then Stopped else Assembled(s.finalisers[i].readAt))
      case Upsert(i) =>
        if !s.finalisers[i].Assembled? then s
        else if s.stored then Put(s, i, Stopped)
        else Put(s, i, Stored(s.finalisers[i].readAt)).(stored := true, stores := s.stores + 1)
      case Announce(i, delivered) =>
        if !s.finalisers[i].Stored? then s
        else Put(s, i, Announced(s.finalisers[i].readAt)).(announcements := s.announcements + (if delivered then 1 else 0))
  }

  function Run(s: State, actions: seq<Action>): (r: State)
    requires s.past != []
    ensures r.past != []
  {
    if actions == [] then s else Fire(Run(s, actions[..|actions| - 1]), actions[|actions| - 1])
  }

  predicate Start(s: State) {
    s.past != [] && !s.stored && s.stores == 0 && s.announcements == 0
    && forall i | 0 <= i < |s.finalisers| :: s.finalisers[i] == Idle
  }

  predicate HasStored(p: Phase) { p.Stored? || p.Announced? }

  predicate HasRead(p: Phase) { p.AllDone? || p.Assembled? || HasStored(p) }

  /** The finaliser read all sessions as completed at the moment it remembers. */
  predicate ReadOk(s: State, i: nat)
    requires i < |s.finalisers|
  {
    HasRead(s.finalisers[i]) ==> s.finalisers[i].readAt < |s.past| && AllCompleted(s.past[s.finalisers[i].readAt])
  }

  predicate OnlyStorer(s: State, i: nat) {
    i < |s.finalisers| && HasStored(s.finalisers[i]) && forall j | 0 <= j < |s.finalisers| && j != i :: !HasStored(s.finalisers[j])
  }

  ghost predicate SummaryInv(s: State) {
    && s.past != []
    && (forall i | 0 <= i < |s.finalisers| :: ReadOk(s, i))
    && s.stores == (if s.stored then 1 else 0)
    && s.announcements <= s.stores
    && (s.stored ==> exists i: nat :: OnlyStorer(s, i))
    && (!s.stored ==> forall i | 0 <= i < |s.finalisers| :: !HasStored(s.finalisers[i]))
    && (forall i | 0 <= i < |s.finalisers| && s.finalisers[i].Stored? :: s.announcements == 0)
  }

  lemma StepKeepsInv(s: State, a: Action)
    requires SummaryInv(s)
    ensures SummaryInv(Fire(s, a))
    ensures s.past <= Fire(s, a).past && |Fire(s, a).finalisers| == |s.finalisers|
  {
    var t := Fire(s, a);
    if a.SessionsChange? {
      forall i | 0 <= i < |s.finalisers| ensures ReadOk(t, i) { assert ReadOk(s, i); }
    } else {
      forall i | 0 <= i < |s.finalisers| ensures ReadOk(t, i) { assert ReadOk(s, i); }
    }
    if s.stored {
      var i: nat :| OnlyStorer(s, i);
      assert OnlyStorer(t, i);
    } else if t.stored {
      assert OnlyStorer(t, a.i);
    }
  }

  /**
   However the finalisers and the sessions interleave, at most one summary is stored and at most one is
   announced, by the finaliser that stored it; and that one had read every source session as completed.
   */
  lemma {:induction false} OneSummary(s: State, actions: seq<Action>)
    requires Start(s)
    ensures var t := Run(s, actions);
            && t.announcements <= t.stores <= 1
            && (t.stored ==> exists i: nat | i < |t.finalisers| :: HasStored(t.finalisers[i])
                               && t.finalisers[i].readAt < |t.past| && AllCompleted(t.past[t.finalisers[i].readAt]))
            && (forall i, j | 0 <= i < j < |t.finalisers| :: !(HasStored(t.finalisers[i]) && HasStored(t.finalisers[j])))
            && SummaryInv(t)
  {
    if actions == [] {
      assert forall i | 0 <= i < |s.finalisers| :: ReadOk(s, i);
    } else {
      OneSummary(s, actions[..|actions| - 1]);
      StepKeepsInv(Run(s, actions[..|actions| - 1]), actions[|actions| - 1]);
    }
    var t := Run(s, actions);
    if t.stored {
      var i: nat :| OnlyStorer(t, i);
      assert ReadOk(t, i);
    }
  }

  /**
   A finaliser reads the sessions as they last changed: it goes on exactly if all of them are completed, or there
   are none but the index has some.
   */
  lemma ReadsThePresent(s: State, now: seq<bool>, i: nat, indexEmpty: bool)
    requires s.past != [] && i < |s.finalisers| && s.finalisers[i] == NoneStored
    ensures var t := Fire(Fire(s, SessionsChange(now)), ReadSources(i, indexEmpty));
            && t.past == s.past + [now] && t.stored == s.stored && t.stores == s.stores && t.announcements == s.announcements
            && t.finalisers == s.finalisers[i := if false in now || (now == [] && indexEmpty) then Stopped else AllDone(|s.past|)]
  {
    assert AllCompleted(now) <==> false !in now;
  }

  /** The five steps of one finaliser with nothing in between. */
  function Alone(s: State, i: nat, indexEmpty: bool, delivered: bool): State
    requires s.past != []
  {
    Fire(Fire(Fire(Fire(Fire(s, CheckStored(i)), ReadSources(i, indexEmpty)), Assemble(i)), Upsert(i)), Announce(i, delivered))
  }

  /**
   A finaliser left alone stores a summary exactly if none is stored, there are sessions and all of them are
   completed; and it announces the one it stored, once.
   */
  lemma AloneStoresIff(s: State, i: nat, indexEmpty: bool, delivered: bool)
    requires s.past != [] && i < |s.finalisers| && s.finalisers[i] == Idle
    ensures var t, now := Alone(s, i, indexEmpty, delivered), s.past[|s.past| - 1];
            if !s.stored && now != [] && (forall k | 0 <= k < |now| :: now[k])
            then t.stored && t.stores == s.stores + 1 && t.announcements == s.announcements + (if delivered then 1 else 0)
                 && t.finalisers[i] == Announced(|s.past| - 1)
            else t.stored == s.stored && t.stores == s.stores && t.announcements == s.announcements && t.finalisers[i] == Stopped
  {
    var checked := Fire(s, CheckStored(i));
    assert checked.past == s.past && checked.finalisers[i] == if s.stored then Stopped else NoneStored;
    var been := Fire(checked, ReadSources(i, indexEmpty));
    assert been.past == s.past;
    var assembled := Fire(been, Assemble(i));
    assert assembled.past == s.past && assembled.stored == s.stored;
  }

  // ---------------------------------------------------------------------------
  // Attendance
  // ---------------------------------------------------------------------------

  /** What the assembly loop uses of one session. */
  datatype SessionRow = SessionRow(userId: string, name: string, responded: bool, reason: string)

  datatype Entry = Entry(user: string, member: string, attended: bool)

  /** The user of a row, when it has one. */
  function UserOf(r: SessionRow): set<string> { if Strip(r.userId) == "" then {} else {Strip(r.userId)} }

  /** The distinct users with a session. */
  function Users(rows: seq<SessionRow>): set<string> {
    if rows == [] then {} else Users(rows[..|rows| - 1]) + UserOf(rows[|rows| - 1])
  }

  /** The users one of whose sessions got a response. */
  function Responders(rows: seq<SessionRow>): (us: set<string>)
    ensures us <= Users(rows)
  {
    if rows == [] then {}
    else
      var last := rows[|rows| - 1];
      Responders(rows[..|rows| - 1]) + (if last.responded then UserOf(last) else {})
  }

  lemma {:induction false} WhoHasSession(rows: seq<SessionRow>, u: string)
    ensures u in Users(rows) <==> exists k | 0 <= k < |rows| :: u in UserOf(rows[k])
  {
    if rows != [] {
      var front := rows[..|rows| - 1];
      WhoHasSession(front, u);
      assert forall k | 0 <= k < |front| :: front[k] == rows[k];
    }
  }

  lemma {:induction false} WhoResponded(rows: seq<SessionRow>, u: string)
    ensures u in Responders(rows) <==> exists k | 0 <= k < |rows| :: u in UserOf(rows[k]) && rows[k].responded
  {
    if rows != [] {
      var front := rows[..|rows| - 1];
      WhoResponded(front, u);
      assert forall k | 0 <= k < |front| :: front[k] == rows[k];
    }
  }

  function UserSeq(entries: seq<Entry>): seq<string> { seq(|entries|, k requires 0 <= k < |entries| => entries[k].user) }

  /** `order` holds every member of `us` exactly once and nothing else. */
  ghost predicate Enumerates(order: seq<string>, us: set<string>) { multiset(order) == multiset(us) }

  lemma EnumeratesMore(order: seq<string>, us: set<string>, u: string)
    requires Enumerates(order, us) && u !in us
    ensures Enumerates(order + [u], us + {u})
  {
    assert multiset(us + {u}) == multiset(us) + multiset{u};
  }

  /** Walking along an enumeration, the next member is new. */
  lemma EnumeratesPrefix(order: seq<string>, all: set<string>, i: nat, us: set<string>)
    requires Enumerates(order, all) && i < |order| && Enumerates(order[..i], us)
    ensures order[i] !in us && Enumerates(order[..i + 1], us + {order[i]})
  {
    var u := order[i];
    assert order == order[..i] + [u] + order[i + 1..];
    assert multiset(order)[u] >= multiset(order[..i])[u] + 1;
    assert multiset(all)[u] <= 1;
    assert order[..i + 1] == order[..i] + [u];
    EnumeratesMore(order[..i], us, u);
  }

  lemma EnumeratesMember(order: seq<string>, all: set<string>, i: nat)
    requires Enumerates(order, all) && i < |order|
    ensures order[i] in all
  {
    assert order[i] in multiset(order);
  }

  lemma EnumerationSize(order: seq<string>, us: set<string>)
    requires Enumerates(order, us)
    ensures |order| == |us|
  {
    assert |multiset(order)| == |multiset(us)|;
  }

  lemma UsersStep(rows: seq<SessionRow>, k: nat)
    requires k < |rows|
    ensures Users(rows[..k + 1]) == Users(rows[..k]) + UserOf(rows[k])
    ensures Responders(rows[..k + 1]) == Responders(rows[..k]) + (if rows[k].responded then UserOf(rows[k]) else {})
  {
    assert rows[..k + 1][..k] == rows[..k];
  }

  /** Row `p` is the first one of this user. */
  ghost predicate FirstOf(rows: seq<SessionRow>, p: nat, user: string) {
    p < |rows| && user in UserOf(rows[p]) && forall q | 0 <= q < p :: user !in UserOf(rows[q])
  }

  /** Users and names as the first of their rows among the first `k` have them, row by row. */
  ghost predicate InOrder(rows: seq<SessionRow>, k: nat, firsts: seq<nat>, order: seq<string>, names: map<string, string>) {
    && |firsts| == |order|
    && (forall i | 0 <= i < |order| ::
          firsts[i] < k && FirstOf(rows, firsts[i], order[i]) && order[i] in names && names[order[i]] == rows[firsts[i]].name)
    && (forall i, j | 0 <= i < j < |firsts| :: firsts[i] < firsts[j])
  }

  /** One more row, with its user added when it is the first of them. */
  lemma InOrderNext(rows: seq<SessionRow>, k: nat, firsts: seq<nat>, order: seq<string>, names: map<string, string>, u: string)
    requires k < |rows| && InOrder(rows, k, firsts, order, names) && names.Keys == Users(rows[..k])
    requires u in UserOf(rows[k]) && u !in names
    ensures InOrder(rows, k + 1, firsts + [k], order + [u], names[u := rows[k].name])
  {
    WhoHasSession(rows[..k], u);
    assert FirstOf(rows, k, u) by {
      forall q | 0 <= q < k ensures u !in UserOf(rows[q]) { assert rows[..k][q] == rows[q]; }
    }
  }

  /** Note a user the first time it appears. */
  method NoteUser(order0: seq<string>, names0: map<string, string>, user: string, name: string)
    returns (order: seq<string>, names: map<string, string>)
    requires Enumerates(order0, names0.Keys)
    ensures names.Keys == names0.Keys + {user} && Enumerates(order, names.Keys)
    ensures user in names0 ==> order == order0 && names == names0
    ensures user !in names0 ==> order == order0 + [user] && names == names0[user := name]
  {
    if user in names0 { return order0, names0; }
    EnumeratesMore(order0, names0.Keys, user);
    order, names := order0 + [user], names0[user := name];
    assert names.Keys == names0.Keys + {user};
  }

  /** What the loop over the sessions holds after the first `k`. */
  ghost predicate RosterAt(rows: seq<SessionRow>, k: nat, order: seq<string>, names: map<string, string>, responders: set<string>,
                     firsts: seq<nat>)
    requires k <= |rows|
  {
    && responders == Responders(rows[..k]) && names.Keys == Users(rows[..k]) && Enumerates(order, names.Keys)
    && InOrder(rows, k, firsts, order, names)
  }

  /** Note one session. */
  method NoteRow(rows: seq<SessionRow>, k: nat, order0: seq<string>, names0: map<string, string>, responders0: set<string>,
                 ghost firsts0: seq<nat>)
    returns (order: seq<string>, names: map<string, string>, responders: set<string>, ghost firsts: seq<nat>)
    requires k < |rows| && RosterAt(rows, k, order0, names0, responders0, firsts0)
    ensures RosterAt(rows, k + 1, order, names, responders, firsts)
  {
    order, names, responders, firsts := order0, names0, responders0, firsts0;
    UsersStep(rows, k);
    var user := Strip(rows[k].userId);
    if user != "" {
      if user !in names {
        InOrderNext(rows, k, firsts, order, names, user);
        firsts := firsts + [k];
      }
      order, names := NoteUser(order, names, user, rows[k].name);
      if rows[k].responded { responders := responders + {user}; }
    }
  }

  /** The loop over the sessions: users in order of appearance with their first name, and who responded. */
  method BuildRoster(rows: seq<SessionRow>)
    returns (order: seq<string>, names: map<string, string>, responders: set<string>, ghost firsts: seq<nat>)
    ensures responders == Responders(rows) && names.Keys == Users(rows) && Enumerates(order, names.Keys)
    ensures InOrder(rows, |rows|, firsts, order, names)
  {
    order, names, responders, firsts := [], map[], {}, [];
    for k := 0 to |rows|
      invariant RosterAt(rows, k, order, names, responders, firsts)
    {
      order, names, responders, firsts := NoteRow(rows, k, order, names, responders, firsts);
    }
    assert rows[..|rows|] == rows;
  }

  /** The last reason recorded for a user's sessions, for those who did not respond. */
  function ReasonOf(rows: seq<SessionRow>, user: string): string {
    if rows == [] then "no_response"
    else if Strip(rows[|rows| - 1].userId) == user then rows[|rows| - 1].reason
    else ReasonOf(rows[..|rows| - 1], user)
  }

  /** The reason given for a user is that of their last session. */
  lemma {:induction false} ReasonIsLast(rows: seq<SessionRow>, user: string, p: nat)
    requires p < |rows| && user in UserOf(rows[p]) && forall q | p < q < |rows| :: user !in UserOf(rows[q])
    ensures ReasonOf(rows, user) == rows[p].reason
  {
    var n := |rows| - 1;
    if p < n {
      assert user !in UserOf(rows[n]);
      ReasonIsLast(rows[..n], user, p);
    }
  }

  /** The names of those who attended. */
  function Attendees(attendance: seq<Entry>): seq<string> {
    if attendance == [] then []
    else
      var n, e := |attendance| - 1, attendance[|attendance| - 1];
      Attendees(attendance[..n]) + (if e.attended then [e.member] else [])
  }

  /** The names of the others, each with a reason. */
  function Absentees(attendance: seq<Entry>, rows: seq<SessionRow>): seq<(string, string)> {
    if attendance == [] then []
    else
      var n, e := |attendance| - 1, attendance[|attendance| - 1];
      Absentees(attendance[..n], rows) + (if e.attended then [] else [(e.member, ReasonOf(rows, e.user))])
  }

  /** Adding a new user to a set adds one to exactly one side of any split. */
  lemma AddToSplit(users: set<string>, user: string, responders: set<string>)
    requires user !in users
    ensures |(users + {user}) * responders| == |users * responders| + (if user in responders then 1 else 0)
    ensures |(users + {user}) - responders| == |users - responders| + (if user in responders then 0 else 1)
  {
    if user in responders {
      assert (users + {user}) * responders == users * responders + {user};
      assert (users + {user}) - responders == users - responders;
    } else {
      assert (users + {user}) * responders == users * responders;
      assert (users + {user}) - responders == (users - responders) + {user};
    }
  }

  /** The entries tell who is among the responders. */
  ghost predicate Tells(attendance: seq<Entry>, responders: set<string>) {
    forall k | 0 <= k < |attendance| :: attendance[k].attended <==> attendance[k].user in responders
  }

  ghost predicate Named(attendance: seq<Entry>, names: map<string, string>) {
    forall k | 0 <= k < |attendance| :: attendance[k].user in names && attendance[k].member == names[attendance[k].user]
  }

  lemma TellsOneMore(attendance: seq<Entry>, user: string, names: map<string, string>, responders: set<string>,
                     rows: seq<SessionRow>)
    requires Tells(attendance, responders) && Named(attendance, names) && user in names
    ensures var next := attendance + [Entry(user, names[user], user in responders)];
            && Tells(next, responders) && Named(next, names) && UserSeq(next) == UserSeq(attendance) + [user]
            && Attendees(next) == Attendees(attendance) + (if user in responders then [names[user]] else [])
            && Absentees(next, rows) ==
               Absentees(attendance, rows) + (if user in responders then [] else [(names[user], ReasonOf(rows, user))])
  {
    var next := attendance + [Entry(user, names[user], user in responders)];
    assert next[..|attendance|] == attendance;
  }

  /** What the loop over the roster holds after the first `i`. */
  ghost predicate SplitAt(rows: seq<SessionRow>, done: seq<string>, names: map<string, string>, responders: set<string>,
                    attendance: seq<Entry>, responded: seq<string>, absent: seq<(string, string)>, users: set<string>)
  {
    && UserSeq(attendance) == done && Enumerates(done, users) && Tells(attendance, responders) && Named(attendance, names)
    && responded == Attendees(attendance) && absent == Absentees(attendance, rows)
    && |responded| == |users * responders| && |absent| == |users - responders|
  }

  /** One of the roster: an attendance entry, and one of the two lists. */
  method SplitOne(rows: seq<SessionRow>, user: string, names: map<string, string>, responders: set<string>,
                  attendance0: seq<Entry>, responded0: seq<string>, absent0: seq<(string, string)>,
                  ghost done: seq<string>, ghost users: set<string>)
    returns (attendance: seq<Entry>, responded: seq<string>, absent: seq<(string, string)>)
    requires SplitAt(rows, done, names, responders, attendance0, responded0, absent0, users)
    requires user in names && user !in users && Enumerates(done + [user], users + {user})
    ensures SplitAt(rows, done + [user], names, responders, attendance, responded, absent, users + {user})
  {
    AddToSplit(users, user, responders);
    TellsOneMore(attendance0, user, names, responders, rows);
    attendance, responded, absent := attendance0 + [Entry(user, names[user], user in responders)], responded0, absent0;
    if user in responders {
      responded := responded + [names[user]];
    } else {
      absent := absent + [(names[user], ReasonOf(rows, user))];
    }
  }

  /** The loop over the roster. */
  method SplitRoster(rows: seq<SessionRow>, order: seq<string>, names: map<string, string>, responders: set<string>)
    returns (attendance: seq<Entry>, responded: seq<string>, absent: seq<(string, string)>)
    requires Enumerates(order, names.Keys)
    ensures UserSeq(attendance) == order
    ensures Tells(attendance, responders) && Named(attendance, names)
    ensures |responded| == |names.Keys * responders| && |absent| == |names.Keys - responders|
    ensures responded == Attendees(attendance) && absent == Absentees(attendance, rows)
  {
    attendance, responded, absent := [], [], [];
    ghost var users: set<string> := {};
    for i := 0 to |order|
      invariant SplitAt(rows, order[..i], names, responders, attendance, responded, absent, users)
    {
      EnumeratesPrefix(order, names.Keys, i, users);
      EnumeratesMember(order, names.Keys, i);
      assert order[..i + 1] == order[..i] + [order[i]];
      attendance, responded, absent :=
        SplitOne(rows, order[i], names, responders, attendance, responded, absent, order[..i], users);
      users := users + {order[i]};
    }
    assert order[..|order|] == order;
    SameSet(users, names.Keys);
  }

  lemma SameSet(a: set<string>, b: set<string>)
    requires multiset(a) == multiset(b)
    ensures a == b
  {
    forall u ensures u in a <==> u in b { assert u in multiset(a) <==> u in multiset(b); }
  }

  /**
   The attendance part of `generate_daily_summary`.  Every distinct user appears exactly once, as attended
   exactly if one of their sessions got a response, in the order and under the name of their first session; both
   groups together make up the total, and the rate is given in hundredths.
   */
  method Attendance(rows: seq<SessionRow>)
    returns (attendance: seq<Entry>, responded: seq<string>, absent: seq<(string, string)>, total: nat, rate: nat,
             ghost firsts: seq<nat>)
    ensures Enumerates(UserSeq(attendance), Users(rows))
    ensures Tells(attendance, Responders(rows))
    ensures total == |Users(rows)| == |responded| + |absent|
    ensures |responded| == |Responders(rows)| && |absent| == |Users(rows) - Responders(rows)|
    ensures rate == Rate(|responded|, total)
    ensures |firsts| == total && forall i, j | 0 <= i < j < total :: firsts[i] < firsts[j]
    ensures |attendance| == total
            && forall i | 0 <= i < total ::
                 FirstOf(rows, firsts[i], attendance[i].user) && attendance[i].member == rows[firsts[i]].name
    ensures responded == Attendees(attendance) && absent == Absentees(attendance, rows)
  {
    var order, names, responders;
    order, names, responders, firsts := BuildRoster(rows);
    attendance, responded, absent := SplitRoster(rows, order, names, responders);
    total := |attendance|;
    assert |UserSeq(attendance)| == |attendance|;
    assert forall i | 0 <= i < total :: attendance[i].user == UserSeq(attendance)[i] == order[i];
    EnumerationSize(order, Users(rows));
    RespondersSplit(rows);
    rate := Rate(|responded|, total);
  }

  lemma RespondersSplit(rows: seq<SessionRow>)
    ensures Users(rows) * Responders(rows) == Responders(rows)
    ensures |Users(rows)| == |Responders(rows)| + |Users(rows) - Responders(rows)|
  {
    assert Users(rows) == Responders(rows) + (Users(rows) - Responders(rows));
  }

  /** `h` hundredths are no further than half of one from the share. */
  predicate Nearest(part: nat, total: nat, h: int) {
    2 * (h * total) - total <= 200 * part <= 2 * (h * total) + total
  }

  /** The participation rate rounded to two places, in hundredths. */
  function Rate(part: nat, total: nat): (h: nat)
    requires part <= total
    ensures h <= 100 && Nearest(part, total, h)
    ensures total == 0 ==> h == 0
  {
    if total == 0 then 0
    else
      RoundingBounds(part, total);
      (200 * part + total) / (2 * total)
  }

  lemma MulMono(a: int, b: int, c: nat)
    requires a <= b
    ensures a * c <= b * c
  {
    assert (b - a) * c >= 0;
  }

  lemma QuotientBounds(x: nat, d: nat, k: nat)
    requires d > 0 && x < (k + 1) * d
    ensures x / d <= k && (x / d) * d <= x < (x / d) * d + d
  {
    var q, r := x / d, x % d;
    assert x == q * d + r;
    if q > k { MulMono(k + 1, q, d); }
  }

  lemma RoundingBounds(part: nat, total: nat)
    requires part <= total && total > 0
    ensures var h := (200 * part + total) / (2 * total); 0 <= h <= 100 && Nearest(part, total, h)
  {
    QuotientBounds(200 * part + total, 2 * total, 100);
    var h := (200 * part + total) / (2 * total);
    assert h * (2 * total) == 2 * (h * total);
  }

  /**
   Two different numbers of hundredths are both nearest only at the exact middle between them, so nothing but
   the way such ties go is left open.
   */
  lemma TwoNearestTie(part: nat, total: nat, g: int, h: int)
    requires total > 0 && Nearest(part, total, g) && Nearest(part, total, h) && g < h
    ensures h == g + 1 && 200 * part == 2 * (g * total) + total
  {
    MulMono(g + 1, h, total);
    assert (g + 1) * total == g * total + total && (g + 2) * total == g * total + 2 * total;
    if h > g + 1 { MulMono(g + 2, h, total); }
  }
}
