// The comment inbox and its polling cursor (cmd/dossierx/comment.go), over runs of the
// thread operations (internal/comments/comments.go).
module Inbox {
  import opened GoStd

  datatype Role = Human | Agent

  datatype Reply = Reply(author: Role, created: string)

  // Timestamps are the engine's own RFC 3339 UTC strings; "" is a stamp never set.
  datatype Thread = Thread(id: string, open: bool, author: Role, created: string, replies: seq<Reply>,
                           resolvedBy: Role, resolvedAt: string, reopenedBy: Role, reopenedAt: string)

  // A claim, or a brief's carrier claim.
  datatype Subject = Subject(id: string, threads: seq<Thread>)

  datatype Entry = Entry(subject: string, thread: string, lastActivity: string, lastAuthor: Role,
                         replies: nat, agentReplied: bool, agentCanResolve: bool)

  // ---- threadLastActivity ----

  function Consider(best: (string, Role), when: string, who: Role): (string, Role) {
    if StrLt(best.0, when) then (when, who) else best
  }

  function LastActivity(th: Thread): (string, Role) {
    var a := (th.created, th.author);
    var b := if th.replies != []
      then Consider(a, th.replies[|th.replies| - 1].created, th.replies[|th.replies| - 1].author) else a;
    Consider(Consider(b, th.resolvedAt, th.resolvedBy), th.reopenedAt, th.reopenedBy)
  }

  method ThreadLastActivity(th: Thread) returns (at: string, author: Role)
    ensures (at, author) == LastActivity(th)
  {
    at, author := th.created, th.author;
    var n := |th.replies|;
    if n > 0 && StrLt(at, th.replies[n - 1].created) {
      at, author := th.replies[n - 1].created, th.replies[n - 1].author;
    }
    if StrLt(at, th.resolvedAt) { at, author := th.resolvedAt, th.resolvedBy; }
    if StrLt(at, th.reopenedAt) { at, author := th.reopenedAt, th.reopenedBy; }
  }

  // The stamps threadLastActivity looks at, each with who made it.
  function Stamps(th: Thread): set<(string, Role)> {
    {(th.created, th.author), (th.resolvedAt, th.resolvedBy), (th.reopenedAt, th.reopenedBy)}
    + if th.replies != [] then {(th.replies[|th.replies| - 1].created, th.replies[|th.replies| - 1].author)} else {}
  }

  lemma ConsiderIsMax(best: (string, Role), when: string, who: Role)
    ensures StrLe(best.0, Consider(best, when, who).0) && StrLe(when, Consider(best, when, who).0)
    ensures Consider(best, when, who) in {best, (when, who)}
  {
    StrLeTotal(best.0, when);
    StrLeTotal(when, best.0);
    if StrLe(best.0, when) && StrLe(when, best.0) { StrLeAntisymmetric(best.0, when); }
  }

  // The last activity is one of the thread's stamps, with the name of whoever made that
  // one, and no stamp is later.
  lemma LastActivityIsNewest(th: Thread)
    ensures LastActivity(th) in Stamps(th)
    ensures forall s :: s in Stamps(th) ==> StrLe(s.0, LastActivity(th).0)
  {
    var a := (th.created, th.author);
    var n := |th.replies|;
    StrLeTotal(a.0, a.0);
    var b := if n > 0 then Consider(a, th.replies[n - 1].created, th.replies[n - 1].author) else a;
    if n > 0 { ConsiderIsMax(a, th.replies[n - 1].created, th.replies[n - 1].author); }
    var c := Consider(b, th.resolvedAt, th.resolvedBy);
    ConsiderIsMax(b, th.resolvedAt, th.resolvedBy);
    ConsiderIsMax(c, th.reopenedAt, th.reopenedBy);
    forall s | s in Stamps(th) ensures StrLe(s.0, LastActivity(th).0) {
      if StrLe(s.0, b.0) { StrLeTransitive(s.0, b.0, c.0); }
      if StrLe(s.0, c.0) { StrLeTransitive(s.0, c.0, LastActivity(th).0); }
    }
  }

  // ---- the scan ----

  predicate Reported(th: Thread, since: string) {
    th.open && (since == "" || !StrLt(LastActivity(th).0, since))
  }

  function MakeEntry(c: Subject, th: Thread): Entry {
    Entry(c.id, th.id, LastActivity(th).0, LastActivity(th).1, |th.replies|,
          exists i :: 0 <= i < |th.replies| && th.replies[i].author == Agent, th.author == Agent)
  }

  function ThreadEntries(c: Subject, threads: seq<Thread>, since: string): seq<Entry> {
    if threads == [] then []
    else
      var last := threads[|threads| - 1];
      ThreadEntries(c, threads[..|threads| - 1], since) + (if Reported(last, since) then [MakeEntry(c, last)] else [])
  }

  function Entries(subjects: seq<Subject>, since: string): seq<Entry> {
    if subjects == [] then []
    else
      var c := subjects[|subjects| - 1];
      Entries(subjects[..|subjects| - 1], since) + ThreadEntries(c, c.threads, since)
  }

  function Later(cursor: string, at: string): string { if StrLt(cursor, at) then at else cursor }

  function ThreadCursor(threads: seq<Thread>, cursor: string): string {
    if threads == [] then cursor
    else
      var before := ThreadCursor(threads[..|threads| - 1], cursor);
      var th := threads[|threads| - 1];
      if th.open then Later(before, LastActivity(th).0) else before
  }

  function Cursor(subjects: seq<Subject>, since: string): string {
    if subjects == [] then since
    else ThreadCursor(subjects[|subjects| - 1].threads, Cursor(subjects[..|subjects| - 1], since))
  }

  // Oldest activity first; ties by claim id, then thread id.
  predicate QueueOrder(a: Entry, b: Entry) {
    if a.lastActivity != b.lastActivity then StrLe(a.lastActivity, b.lastActivity)
    else if a.subject != b.subject then StrLe(a.subject, b.subject)
    else StrLe(a.thread, b.thread)
  }

  method AgentReplied(th: Thread) returns (some: bool)
    ensures some <==> exists i :: 0 <= i < |th.replies| && th.replies[i].author == Agent
  {
    some := false;
    for k := 0 to |th.replies|
      invariant !some && forall r :: 0 <= r < k ==> th.replies[r].author != Agent
    {
      if th.replies[k].author == Agent { return true; }
    }
  }

  method Scan(subjects: seq<Subject>, since: string) returns (cursor: string, threads: seq<Entry>)
    ensures cursor == Cursor(subjects, since)
    ensures SortedBy(threads, QueueOrder) && multiset(threads) == multiset(Entries(subjects, since))
    ensures OldestFirst(threads)
  {
    hide LastActivity, StrLt;
    cursor, threads := since, [];
    for i := 0 to |subjects|
      invariant cursor == Cursor(subjects[..i], since)
      invariant threads == Entries(subjects[..i], since)
    {
      var c := subjects[i];
      assert subjects[..i + 1][..i] == subjects[..i];
      ghost var cursor0, threads0 := cursor, threads;
      for j := 0 to |c.threads|
        invariant cursor == ThreadCursor(c.threads[..j], cursor0)
        invariant threads == threads0 + ThreadEntries(c, c.threads[..j], since)
      {
        var th := c.threads[j];
        assert c.threads[..j + 1][..j] == c.threads[..j];
        if !th.open { continue; }
        var at, lastAuthor := ThreadLastActivity(th);
        if StrLt(cursor, at) { cursor := at; }
        if since != "" && StrLt(at, since) { continue; }
        var agentReplied := AgentReplied(th);
        threads := threads + [Entry(c.id, th.id, at, lastAuthor, |th.replies|, agentReplied, th.author == Agent)];
      }
      assert c.threads[..|c.threads|] == c.threads;
    }
    assert subjects[..|subjects|] == subjects;
    QueueIsOrder();
    SortBySorted(threads, QueueOrder);
    threads := SortBy(threads, QueueOrder);
    QueueIsOldestFirst(threads);
  }

  // The queue as the reader works through it: what has waited longest first, and among
  // those of one moment by claim and then by thread.
  ghost predicate OldestFirst(threads: seq<Entry>) {
    forall i, j :: 0 <= i < j < |threads| ==>
      && StrLe(threads[i].lastActivity, threads[j].lastActivity)
      && (threads[i].lastActivity == threads[j].lastActivity ==> StrLe(threads[i].subject, threads[j].subject))
      && (threads[i].lastActivity == threads[j].lastActivity && threads[i].subject == threads[j].subject ==>
            StrLe(threads[i].thread, threads[j].thread))
  }

  lemma QueueIsOldestFirst(threads: seq<Entry>)
    requires SortedBy(threads, QueueOrder)
    ensures OldestFirst(threads)
  {
    forall i, j | 0 <= i < j < |threads|
      ensures StrLe(threads[i].lastActivity, threads[j].lastActivity)
      ensures threads[i].lastActivity == threads[j].lastActivity ==> StrLe(threads[i].subject, threads[j].subject)
    {
      assert QueueOrder(threads[i], threads[j]);
      StrLeTotal(threads[i].lastActivity, threads[i].lastActivity);
      StrLeTotal(threads[i].subject, threads[i].subject);
    }
  }

  lemma QueueIsOrder()
    ensures IsOrder(QueueOrder)
  {
    forall a: Entry, b: Entry ensures QueueOrder(a, b) || QueueOrder(b, a) {
      StrLeTotal(a.lastActivity, b.lastActivity);
      StrLeTotal(a.subject, b.subject);
      StrLeTotal(a.thread, b.thread);
    }
    forall a: Entry, b: Entry, c: Entry | QueueOrder(a, b) && QueueOrder(b, c) ensures QueueOrder(a, c) {
      QueueTransitive(a, b, c);
    }
  }

  lemma QueueTransitive(a: Entry, b: Entry, c: Entry)
    requires QueueOrder(a, b) && QueueOrder(b, c)
    ensures QueueOrder(a, c)
  {
    if a.lastActivity != b.lastActivity || b.lastActivity != c.lastActivity {
      LexStep(a.lastActivity, b.lastActivity, c.lastActivity);
    } else if a.subject != b.subject || b.subject != c.subject {
      LexStep(a.subject, b.subject, c.subject);
    } else {
      StrLeTransitive(a.thread, b.thread, c.thread);
    }
  }

  lemma LexStep(x: string, y: string, z: string)
    requires StrLe(x, y) || x == y
    requires StrLe(y, z) || y == z
    requires x != y || y != z
    ensures x != z && StrLe(x, z)
  {
    StrLeTotal(x, x);
    StrLeTotal(y, y);
    StrLeTransitive(x, y, z);
    if x == z { StrLeAntisymmetric(x, y); }
  }

  lemma {:induction false} ThreadEntriesHold(c: Subject, threads: seq<Thread>, since: string, j: nat)
    requires j < |threads| && Reported(threads[j], since)
    ensures MakeEntry(c, threads[j]) in ThreadEntries(c, threads, since)
  {
    if j == |threads| - 1 {
    } else {
      ThreadEntriesHold(c, threads[..|threads| - 1], since, j);
    }
  }

  lemma {:induction false} EntriesHold(subjects: seq<Subject>, since: string, i: nat, j: nat)
    requires i < |subjects| && j < |subjects[i].threads| && Reported(subjects[i].threads[j], since)
    ensures MakeEntry(subjects[i], subjects[i].threads[j]) in Entries(subjects, since)
  {
    if i < |subjects| - 1 {
      EntriesHold(subjects[..|subjects| - 1], since, i, j);
    } else {
      ThreadEntriesHold(subjects[i], subjects[i].threads, since, j);
    }
  }

  lemma {:induction false} ThreadEntriesOnly(c: Subject, threads: seq<Thread>, since: string, e: Entry)
    requires e in ThreadEntries(c, threads, since)
    ensures exists j :: 0 <= j < |threads| && Reported(threads[j], since) && e == MakeEntry(c, threads[j])
  {
    hide Reported, MakeEntry;
    var init := threads[..|threads| - 1];
    if e in ThreadEntries(c, init, since) {
      ThreadEntriesOnly(c, init, since, e);
      var j :| 0 <= j < |init| && Reported(init[j], since) && e == MakeEntry(c, init[j]);
      assert threads[j] == init[j];
    }
  }

  lemma {:induction false} EntriesOnly(subjects: seq<Subject>, since: string, e: Entry)
    requires e in Entries(subjects, since)
    ensures exists i, j ::
      0 <= i < |subjects| && 0 <= j < |subjects[i].threads| && Reported(subjects[i].threads[j], since)
      && e == MakeEntry(subjects[i], subjects[i].threads[j])
  {
    hide Reported, MakeEntry;
    var last := |subjects| - 1;
    var init := subjects[..last];
    if e in Entries(init, since) {
      EntriesOnly(init, since, e);
      var i, j :| 0 <= i < |init| && 0 <= j < |init[i].threads| && Reported(init[i].threads[j], since)
        && e == MakeEntry(init[i], init[i].threads[j]);
      assert subjects[i] == init[i];
    } else {
      ThreadEntriesOnly(subjects[last], subjects[last].threads, since, e);
    }
  }

  // A stamp of the thread is t or later.
  ghost predicate TouchedSince(th: Thread, t: string) { exists s :: s in Stamps(th) && StrLe(t, s.0) }

  // Reported exactly when it is open and something happened to it at the cursor or later.
  lemma ReportedIff(th: Thread, since: string)
    ensures Reported(th, since) <==> th.open && TouchedSince(th, since)
  {
    LastActivityIsNewest(th);
    var last := LastActivity(th);
    StrLeTotal(since, last.0);
    if StrLe(since, last.0) && StrLt(last.0, since) { StrLeAntisymmetric(since, last.0); }
    if s :| s in Stamps(th) && StrLe(since, s.0) { StrLeTransitive(since, s.0, last.0); }
  }

  // ---- runs ----

  type Key = (string, string) // subject id, thread id

  datatype Event =
    | Open(key: Key, who: Role, at: string)
    | ReplyTo(key: Key, who: Role, at: string)
    | Resolve(key: Key, who: Role, at: string)
    | Reopen(key: Key, who: Role, at: string)
    | DeleteReply(key: Key, index: nat)
    | DeleteThread(key: Key)
    | Poll(subjects: seq<Subject>)

  datatype State = State(threads: map<Key, Thread>, cursor: string)

  // The advisory right to resolve, reopen or delete.
  predicate CanAct(who: Role, author: Role) { who == Human || author == Agent }

  // The four events that put something on a thread. An event the engine refuses is not one.
  predicate Accepted(s: State, e: Event) {
    match e
    case Open(key, _, _) => key !in s.threads
    case ReplyTo(key, _, _) => key in s.threads && s.threads[key].open
    case Resolve(key, who, _) => key in s.threads && s.threads[key].open && CanAct(who, s.threads[key].author)
    case Reopen(key, who, _) => key in s.threads && !s.threads[key].open && CanAct(who, s.threads[key].author)
    case _ => false
  }

  function Activity(s: State, e: Event): Thread
    requires Accepted(s, e)
  {
    match e
    case Open(key, who, at) => Thread(key.1, true, who, at, [], Human, "", Human, "")
    case ReplyTo(key, who, at) => s.threads[key].(replies := s.threads[key].replies + [Reply(who, at)])
    case Resolve(key, who, at) => s.threads[key].(open := false, resolvedBy := who, resolvedAt := at)
    case Reopen(key, who, at) => s.threads[key].(open := true, reopenedBy := who, reopenedAt := at)
  }

  // Who may do what: anyone opens a thread that is not there and replies to an open one;
  // resolving takes an open thread and reopening a resolved one, from a human always and
  // from an agent only where an agent opened it.
  lemma EventsAreAccepted(s: State, key: Key, who: Role, at: string)
    ensures Accepted(s, Open(key, who, at)) <==> key !in s.threads
    ensures Accepted(s, ReplyTo(key, who, at)) <==> key in s.threads && s.threads[key].open
    ensures Accepted(s, Resolve(key, who, at)) <==>
      key in s.threads && s.threads[key].open && !(who == Agent && s.threads[key].author == Human)
    ensures Accepted(s, Reopen(key, who, at)) <==>
      key in s.threads && !s.threads[key].open && !(who == Agent && s.threads[key].author == Human)
  {
  }

  // One step; a poll passes the cursor of the poll before it and keeps the one it gets.
  function Step(s: State, e: Event): State {
    if Accepted(s, e) then s.(threads := s.threads[e.key := Activity(s, e)])
    else match e
      case DeleteReply(key, i) =>
        if key in s.threads && i < |s.threads[key].replies| then
          var r := s.threads[key].replies;
          s.(threads := s.threads[key := s.threads[key].(replies := r[..i] + r[i + 1..])])
        else s
      case DeleteThread(key) => s.(threads := s.threads - {key})
      case Poll(subjects) => s.(cursor := Cursor(subjects, s.cursor))
      case _ => s
  }

  const START := State(map[], "")

  function After(run: seq<Event>): State {
    if run == [] then START else Step(After(run[..|run| - 1]), run[|run| - 1])
  }

  lemma AfterNext(run: seq<Event>, n: nat)
    requires n < |run|
    ensures After(run[..n + 1]) == Step(After(run[..n]), run[n])
  {
    assert run[..n + 1][..n] == run[..n];
  }

  // An accepted event leaves its thread open unless it resolves it, by the one who opened
  // it, with what was said before, and touches no other thread.
  lemma EventsLeave(s: State, e: Event)
    requires Accepted(s, e)
    ensures var now := Step(s, e);
      && e.key in now.threads && (now.threads[e.key].open <==> !e.Resolve?) && now.cursor == s.cursor
      && (forall key :: key != e.key ==> (key in now.threads <==> key in s.threads))
      && (forall key :: key != e.key && key in s.threads ==> now.threads[key] == s.threads[key])
    ensures e.key in s.threads ==>
      var was, now := s.threads[e.key], Step(s, e).threads[e.key];
      && now.author == was.author && now.created == was.created
      && now.replies == was.replies + if e.ReplyTo? then [Reply(e.who, e.at)] else []
  {
    if e.key in s.threads { assert s.threads[e.key].replies + [] == s.threads[e.key].replies; }
  }

  // A deleted thread is gone, and the other replies stay in order.
  lemma DeletionsLeave(s: State, key: Key, index: nat)
    ensures Step(s, DeleteThread(key)) == State(map k | k in s.threads && k != key :: s.threads[k], s.cursor)
    ensures key in s.threads && index < |s.threads[key].replies| ==>
      var was := s.threads[key];
      Step(s, DeleteReply(key, index)) ==
        s.(threads := s.threads[key := was.(replies := was.replies[..index] + was.replies[index + 1..])])
  {
    assert s.threads - {key} == map k | k in s.threads && k != key :: s.threads[k];
  }

  // What an entry tells of its thread: how often it was answered, whether by an agent, and
  // whether an agent could resolve it, by the very rights a resolve is checked against.
  lemma EntryTells(s: State, c: Subject, th: Thread, key: Key, at: string)
    requires key in s.threads && s.threads[key] == th && th.open
    ensures var e := MakeEntry(c, th);
      && e.subject == c.id && e.thread == th.id && e.replies == |th.replies|
      && (e.lastActivity, e.lastAuthor) in Stamps(th)
      && (e.agentReplied <==> Agent in Authors(th.replies))
      && (e.agentCanResolve <==> Accepted(s, Resolve(key, Agent, at)))
  {
    LastActivityIsNewest(th);
    if Agent in Authors(th.replies) {
      var r :| r in th.replies && r.author == Agent;
      var i :| 0 <= i < |th.replies| && th.replies[i] == r;
    }
  }

  ghost function Authors(replies: seq<Reply>): set<Role> { set r | r in replies :: r.author }

  // A poll reads the project as it stands, in whatever order the files come.
  ghost predicate Lists(subjects: seq<Subject>, threads: map<Key, Thread>) {
    && (forall i, j :: 0 <= i < |subjects| && 0 <= j < |subjects[i].threads| ==>
          var key := (subjects[i].id, subjects[i].threads[j].id);
          key in threads && threads[key] == subjects[i].threads[j])
    && (forall key :: key in threads ==> Listed(subjects, key, threads[key]))
  }

  ghost predicate Listed(subjects: seq<Subject>, key: Key, th: Thread) {
    exists i, j :: 0 <= i < |subjects| && 0 <= j < |subjects[i].threads|
      && subjects[i].id == key.0 && subjects[i].threads[j] == th
  }

  predicate Stamped(e: Event) { e.Open? || e.ReplyTo? || e.Resolve? || e.Reopen? }

  // One clock, never running backwards; polls read what is there.
  ghost predicate IsRun(run: seq<Event>) {
    && (forall i, j :: 0 <= i < j < |run| && Stamped(run[i]) && Stamped(run[j]) ==> StrLe(run[i].at, run[j].at))
    && (forall i :: 0 <= i < |run| && run[i].Poll? ==> Lists(run[i].subjects, After(run[..i]).threads))
  }

  // Nothing on record is later than t.
  ghost predicate NothingAfter(s: State, t: string) {
    && StrLe(s.cursor, t)
    && forall key :: key in s.threads ==> ThreadBy(s.threads[key], t)
  }

  ghost predicate ThreadBy(th: Thread, t: string) {
    && StrLe(th.created, t) && StrLe(th.resolvedAt, t) && StrLe(th.reopenedAt, t)
    && forall i :: 0 <= i < |th.replies| ==> StrLe(th.replies[i].created, t)
  }

  lemma LastActivityBy(th: Thread, t: string)
    requires ThreadBy(th, t)
    ensures StrLe(LastActivity(th).0, t)
  {
    LastActivityIsNewest(th);
  }

  lemma {:induction false} ThreadCursorBounds(threads: seq<Thread>, cursor: string, t: string)
    ensures StrLe(cursor, ThreadCursor(threads, cursor))
    ensures StrLe(cursor, t) && (forall j :: 0 <= j < |threads| ==> ThreadBy(threads[j], t))
      ==> StrLe(ThreadCursor(threads, cursor), t)
  {
    if threads == [] {
      StrLeTotal(cursor, cursor);
    } else {
      var before := ThreadCursor(threads[..|threads| - 1], cursor);
      ThreadCursorBounds(threads[..|threads| - 1], cursor, t);
      var th := threads[|threads| - 1];
      if th.open {
        StrLeTotal(before, LastActivity(th).0);
        if StrLt(before, LastActivity(th).0) { StrLeTransitive(cursor, before, LastActivity(th).0); }
        if ThreadBy(th, t) { LastActivityBy(th, t); }
      }
    }
  }

  lemma {:induction false} CursorBounds(subjects: seq<Subject>, since: string, t: string)
    ensures StrLe(since, Cursor(subjects, since))
    ensures StrLe(since, t)
      && (forall i, j :: 0 <= i < |subjects| && 0 <= j < |subjects[i].threads| ==> ThreadBy(subjects[i].threads[j], t))
      ==> StrLe(Cursor(subjects, since), t)
  {
    if subjects == [] {
      StrLeTotal(since, since);
    } else {
      var init := subjects[..|subjects| - 1];
      CursorBounds(init, since, t);
      var c := subjects[|subjects| - 1];
      ThreadCursorBounds(c.threads, Cursor(init, since), t);
      StrLeTransitive(since, Cursor(init, since), Cursor(subjects, since));
    }
  }

  // The cursor a scan answers with is the one it was given or the newest activity of an open
  // thread, whichever is later, reported or not.
  lemma CursorIsNewest(subjects: seq<Subject>, since: string)
    ensures var cursor := Cursor(subjects, since);
      && StrLe(since, cursor)
      && (forall i, j :: 0 <= i < |subjects| && 0 <= j < |subjects[i].threads| && subjects[i].threads[j].open ==>
            StrLe(LastActivity(subjects[i].threads[j]).0, cursor))
      && (cursor == since || DatesOne(subjects, cursor))
  {
    CursorReaches(subjects, since);
    CursorBounds(subjects, since, "");
  }

  ghost predicate DatesOne(subjects: seq<Subject>, at: string) {
    exists i, j :: 0 <= i < |subjects| && 0 <= j < |subjects[i].threads| && subjects[i].threads[j].open
      && LastActivity(subjects[i].threads[j]).0 == at
  }

  lemma {:induction false} ThreadCursorReaches(threads: seq<Thread>, cursor: string)
    ensures var now := ThreadCursor(threads, cursor);
      && StrLe(cursor, now)
      && (forall j :: 0 <= j < |threads| && threads[j].open ==> StrLe(LastActivity(threads[j]).0, now))
      && (now == cursor || exists j :: 0 <= j < |threads| && threads[j].open && LastActivity(threads[j]).0 == now)
  {
    hide LastActivity;
    StrLeTotal(cursor, cursor);
    if threads == [] {
    } else {
      var n := |threads| - 1;
      var before := ThreadCursor(threads[..n], cursor);
      var now := ThreadCursor(threads, cursor);
      ThreadCursorReaches(threads[..n], cursor);
      StrLeTotal(before, LastActivity(threads[n]).0);
      StrLeTotal(before, before);
      StrLeTotal(LastActivity(threads[n]).0, LastActivity(threads[n]).0);
      assert StrLe(before, now);
      assert threads[n].open ==> StrLe(LastActivity(threads[n]).0, now);
      StrLeTransitive(cursor, before, now);
      forall j | 0 <= j < |threads| && threads[j].open ensures StrLe(LastActivity(threads[j]).0, now) {
        if j < n { assert threads[..n][j].open; StrLeTransitive(LastActivity(threads[j]).0, before, now); }
      }
    }
  }

  lemma {:induction false} CursorReaches(subjects: seq<Subject>, since: string)
    ensures var cursor := Cursor(subjects, since);
      && (forall i, j :: 0 <= i < |subjects| && 0 <= j < |subjects[i].threads| && subjects[i].threads[j].open ==>
            StrLe(LastActivity(subjects[i].threads[j]).0, cursor))
      && (cursor == since || DatesOne(subjects, cursor))
  {
    hide LastActivity;
    if subjects == [] {
    } else {
      var n := |subjects| - 1;
      var before, cursor := Cursor(subjects[..n], since), Cursor(subjects, since);
      CursorReaches(subjects[..n], since);
      ThreadCursorReaches(subjects[n].threads, before);
      forall i, j | 0 <= i < |subjects| && 0 <= j < |subjects[i].threads| && subjects[i].threads[j].open
        ensures StrLe(LastActivity(subjects[i].threads[j]).0, cursor)
      {
        if i < n {
          assert subjects[..n][i].threads[j].open;
          StrLeTransitive(LastActivity(subjects[i].threads[j]).0, before, cursor);
        }
      }
      if cursor != since && cursor == before {
        var i, j :| 0 <= i < n && 0 <= j < |subjects[..n][i].threads| && subjects[..n][i].threads[j].open
          && LastActivity(subjects[..n][i].threads[j]).0 == cursor;
        assert subjects[i].threads[j].open;
      }
    }
  }

  lemma StepKeepsBound(s: State, e: Event, t: string)
    requires NothingAfter(s, t)
    requires Stamped(e) ==> StrLe(e.at, t)
    requires e.Poll? ==> Lists(e.subjects, s.threads)
    ensures NothingAfter(Step(s, e), t)
  {
    match e
    case Poll(subjects) =>
      forall i, j | 0 <= i < |subjects| && 0 <= j < |subjects[i].threads| ensures ThreadBy(subjects[i].threads[j], t) {
        assert (subjects[i].id, subjects[i].threads[j].id) in s.threads;
      }
      CursorBounds(subjects, s.cursor, t);
    case _ =>
  }

  // Before a stamped event, nothing on record is later than its stamp.
  lemma {:induction false} ClockBounds(run: seq<Event>, n: nat, t: string)
    requires IsRun(run) && n <= |run|
    requires forall i :: 0 <= i < n && Stamped(run[i]) ==> StrLe(run[i].at, t)
    ensures NothingAfter(After(run[..n]), t)
    decreases n
  {
    if n > 0 {
      ClockBounds(run, n - 1, t);
      assert run[..n][..n - 1] == run[..n - 1];
      StepKeepsBound(After(run[..n - 1]), run[n - 1], t);
    } else {
      StrLeTotal("", t);
    }
  }

  // The cursor never goes back.
  lemma {:induction false} CursorNeverDecreases(run: seq<Event>, m: nat, n: nat)
    requires m <= n <= |run|
    ensures StrLe(After(run[..m]).cursor, After(run[..n]).cursor)
    decreases n
  {
    if m == n {
      StrLeTotal(After(run[..n]).cursor, After(run[..n]).cursor);
    } else {
      CursorNeverDecreases(run, m, n - 1);
      assert run[..n][..n - 1] == run[..n - 1];
      var s := After(run[..n - 1]);
      StrLeTotal(s.cursor, s.cursor);
      if run[n - 1].Poll? { CursorBounds(run[n - 1].subjects, s.cursor, ""); }
      StrLeTransitive(After(run[..m]).cursor, s.cursor, Step(s, run[n - 1]).cursor);
    }
  }

  // Takes the newest reply off a thread.
  predicate DeletesNewest(s: State, e: Event, key: Key) {
    e.DeleteReply? && e.key == key && key in s.threads && e.index == |s.threads[key].replies| - 1
  }

  // An event on a thread dates it at least to the event, until its newest reply is deleted.
  ghost predicate ActiveSince(s: State, key: Key, t: string) {
    key in s.threads ==> StrLe(t, LastActivity(s.threads[key]).0)
  }

  lemma StepKeepsActive(s: State, e: Event, key: Key, t: string)
    requires ActiveSince(s, key, t)
    requires Stamped(e) ==> StrLe(t, e.at) && NothingAfter(s, e.at)
    requires !DeletesNewest(s, e, key)
    ensures ActiveSince(Step(s, e), key, t)
  {
    if e.DeleteReply? && e.key == key && key in s.threads && e.index < |s.threads[key].replies| {
      var r := s.threads[key].replies;
      var cut := r[..e.index] + r[e.index + 1..];
      assert cut[|cut| - 1] == r[|r| - 1];
      assert LastActivity(s.threads[key].(replies := cut)) == LastActivity(s.threads[key]);
    }
    if Accepted(s, e) && e.key == key { AcceptedDates(s, e); StrLeTransitive(t, e.at, LastActivity(Activity(s, e)).0); }
  }

  lemma AcceptedDates(s: State, e: Event)
    requires Accepted(s, e) && NothingAfter(s, e.at)
    ensures StrLe(e.at, LastActivity(Activity(s, e)).0)
  {
    var th := Activity(s, e);
    LastActivityIsNewest(th);
    match e
    case Open(_, who, at) => assert (at, who) in Stamps(th);
    case ReplyTo(key, who, at) =>
      assert th.replies[|th.replies| - 1] == Reply(who, at);
      assert (at, who) in Stamps(th);
    case Resolve(_, who, at) => assert (at, who) in Stamps(th);
    case Reopen(_, who, at) => assert (at, who) in Stamps(th);
  }

  lemma AcceptedIsActive(s: State, e: Event)
    requires Accepted(s, e) && NothingAfter(s, e.at)
    ensures ActiveSince(Step(s, e), e.key, e.at)
  {
    AcceptedDates(s, e);
  }

  lemma StampsUpTo(run: seq<Event>, i: nat)
    requires IsRun(run) && i < |run| && Stamped(run[i])
    ensures NothingAfter(After(run[..i]), run[i].at)
  {
    ClockBounds(run, i, run[i].at);
  }

  // One more event of a run, short of deleting the thread's newest reply.
  lemma NextKeepsActive(run: seq<Event>, n: nat, key: Key, t: string)
    requires IsRun(run) && n < |run| && ActiveSince(After(run[..n]), key, t)
    requires Stamped(run[n]) ==> StrLe(t, run[n].at)
    requires !DeletesNewest(After(run[..n]), run[n], key)
    ensures ActiveSince(After(run[..n + 1]), key, t)
  {
    hide ActiveSince, Step, DeletesNewest, NothingAfter, IsRun, After;
    AfterNext(run, n);
    if Stamped(run[n]) { StampsUpTo(run, n); }
    StepKeepsActive(After(run[..n]), run[n], key, t);
  }

  lemma StartsActive(run: seq<Event>, i: nat)
    requires IsRun(run) && i < |run| && Accepted(After(run[..i]), run[i])
    ensures ActiveSince(After(run[..i + 1]), run[i].key, run[i].at)
  {
    AfterNext(run, i);
    StampsUpTo(run, i);
    AcceptedIsActive(After(run[..i]), run[i]);
  }

  lemma {:induction false} StaysActive(run: seq<Event>, i: nat, n: nat)
    requires IsRun(run) && i < n <= |run| && Accepted(After(run[..i]), run[i])
    requires forall k :: i < k < n ==> !DeletesNewest(After(run[..k]), run[k], run[i].key)
    ensures ActiveSince(After(run[..n]), run[i].key, run[i].at)
    decreases n
  {
    hide ActiveSince, DeletesNewest, After;
    if n == i + 1 {
      StartsActive(run, i);
    } else {
      StaysActive(run, i, n - 1);
      NextKeepsActive(run, n - 1, run[i].key, run[i].at);
    }
  }

  lemma {:induction false} CursorStays(run: seq<Event>, i: nat, n: nat)
    requires i <= n <= |run| && forall k :: i <= k < n ==> !run[k].Poll?
    ensures After(run[..n]).cursor == After(run[..i]).cursor
    decreases n
  {
    if i == n {
    } else {
      CursorStays(run, i, n - 1);
      assert run[..n][..n - 1] == run[..n - 1];
    }
  }

  ghost predicate InList(entries: seq<Entry>, key: Key) {
    exists e :: e in entries && (e.subject, e.thread) == key
  }

  lemma ReportedIsListed(run: seq<Event>, k: nat, key: Key)
    requires IsRun(run) && k < |run| && run[k].Poll?
    requires var now := After(run[..k]); key in now.threads && Reported(now.threads[key], now.cursor)
    ensures var now := After(run[..k]);
            exists e :: e in Entries(run[k].subjects, now.cursor) && (e.subject, e.thread) == key
              && e.lastActivity == LastActivity(now.threads[key]).0
  {
    hide After, Entries, Reported, LastActivity;
    var now := After(run[..k]);
    var th := now.threads[key];
    assert Listed(run[k].subjects, key, th);
    var a, b :| 0 <= a < |run[k].subjects| && 0 <= b < |run[k].subjects[a].threads|
      && run[k].subjects[a].id == key.0 && run[k].subjects[a].threads[b] == th;
    EntriesHold(run[k].subjects, now.cursor, a, b);
    ThreadKeepsId(run, k, key);
    assert MakeEntry(run[k].subjects[a], th).thread == key.1;
  }

  // The list of every poll of every run, exactly: the open threads something happened to
  // at or after the cursor, by the stamps they carry now.
  lemma ListedIff(run: seq<Event>, k: nat, key: Key)
    requires IsRun(run) && k < |run| && run[k].Poll?
    ensures var now := After(run[..k]);
      InList(Entries(run[k].subjects, now.cursor), key) <==>
        key in now.threads && now.threads[key].open && TouchedSince(now.threads[key], now.cursor)
  {
    hide After, Entries, Reported, LastActivity, TouchedSince;
    var now := After(run[..k]);
    var entries := Entries(run[k].subjects, now.cursor);
    if e :| e in entries && (e.subject, e.thread) == key {
      EntriesOnly(run[k].subjects, now.cursor, e);
      var i, j :| 0 <= i < |run[k].subjects| && 0 <= j < |run[k].subjects[i].threads|
        && Reported(run[k].subjects[i].threads[j], now.cursor)
        && e == MakeEntry(run[k].subjects[i], run[k].subjects[i].threads[j]);
      assert key in now.threads && now.threads[key] == run[k].subjects[i].threads[j];
    }
    if key in now.threads {
      ReportedIff(now.threads[key], now.cursor);
      if Reported(now.threads[key], now.cursor) { ReportedIsListed(run, k, key); }
    }
  }

  // AT LEAST ONCE. A thread that was opened, replied to, resolved or reopened since the
  // previous poll and is open at this one is in this poll's list, whatever else happened
  // in between, short of deleting the newest of its replies.
  lemma AtLeastOnce(run: seq<Event>, i: nat, k: nat)
    requires IsRun(run) && i < k < |run| && Accepted(After(run[..i]), run[i]) && run[k].Poll?
    requires forall m :: i < m < k ==> !run[m].Poll? && !DeletesNewest(After(run[..m]), run[m], run[i].key)
    requires var now := After(run[..k]).threads; run[i].key in now && now[run[i].key].open
    ensures var now := After(run[..k]);
            exists e :: e in Entries(run[k].subjects, now.cursor) && (e.subject, e.thread) == run[i].key
              && e.lastActivity == LastActivity(now.threads[run[i].key]).0
  {
    hide After, Entries, DeletesNewest;
    var now := After(run[..k]);
    var key := run[i].key;
    var th := now.threads[key];
    StaysActive(run, i, k);
    StampsUpTo(run, i);
    CursorStays(run, i, k);
    StrLeTransitive(now.cursor, run[i].at, LastActivity(th).0);
    if StrLt(LastActivity(th).0, now.cursor) { StrLeAntisymmetric(LastActivity(th).0, now.cursor); }
    ReportedIsListed(run, k, key);
  }

  lemma {:induction false} ThreadKeepsId(run: seq<Event>, n: nat, key: Key)
    requires n <= |run| && key in After(run[..n]).threads
    ensures After(run[..n]).threads[key].id == key.1
    decreases n
  {
    assert n > 0;
    assert run[..n][..n - 1] == run[..n - 1];
    if key in After(run[..n - 1]).threads { ThreadKeepsId(run, n - 1, key); }
  }

  // ---- the run that misses a reply ----

  const FIRST: Key := ("a", "c-1")
  const SECOND: Key := ("a", "c-2")
  const EARLY := Thread("c-1", true, Human, "1", [], Human, "", Human, "")
  const LATE := Thread("c-2", true, Human, "2", [], Human, "", Human, "")

  // Two threads, a poll, a reply to the older one that is deleted again, and a poll.
  const MISSED: seq<Event> := [
    Open(FIRST, Human, "1"), Open(SECOND, Human, "2"), Poll([Subject("a", [EARLY, LATE])]),
    ReplyTo(FIRST, Agent, "3"), DeleteReply(FIRST, 0), Poll([Subject("a", [EARLY, LATE])])]

  lemma DigitsOrdered()
    ensures StrLe("1", "2") && StrLe("1", "3") && StrLe("2", "3") && !StrLe("2", "1") && !StrLe("2", "")
    ensures StrLe("", "1")
  {
    assert "1"[1..] == "" && "2"[1..] == "" && "3"[1..] == "";
  }

  lemma LastActivityPlain(th: Thread)
    requires th.replies == [] && th.resolvedAt == "" && th.reopenedAt == ""
    ensures LastActivity(th) == (th.created, th.author)
  {
  }

  lemma FirstPoll()
    ensures Cursor([Subject("a", [EARLY, LATE])], "") == "2"
  {
    DigitsOrdered();
    LastActivityPlain(EARLY);
    LastActivityPlain(LATE);
    assert [EARLY, LATE][..1] == [EARLY] && [EARLY][..0] == [];
    assert ThreadCursor([EARLY], "") == "1";
    assert [Subject("a", [EARLY, LATE])][..0] == [];
  }

  lemma MissedStates()
    ensures After(MISSED[..2]) == State(map[FIRST := EARLY, SECOND := LATE], "")
    ensures After(MISSED[..3]) == After(MISSED[..5]) == State(map[FIRST := EARLY, SECOND := LATE], "2")
    ensures Accepted(After(MISSED[..3]), MISSED[3])
  {
    assert MISSED[..0] == [];
    AfterNext(MISSED, 0);
    AfterNext(MISSED, 1);
    AfterNext(MISSED, 2);
    FirstPoll();
    AfterNext(MISSED, 3);
    AfterNext(MISSED, 4);
    var replied := EARLY.replies + [Reply(Agent, "3")];
    assert replied[..0] + replied[1..] == EARLY.replies;
    assert SECOND.1[2] != FIRST.1[2];
  }

  lemma MissedPolls()
    ensures Lists([Subject("a", [EARLY, LATE])], map[FIRST := EARLY, SECOND := LATE])
  {
    var subjects := [Subject("a", [EARLY, LATE])];
    assert SECOND.1[2] != FIRST.1[2];
    assert subjects[0].threads[0] == EARLY && subjects[0].threads[1] == LATE;
  }

  // A reply to a thread older than the cursor, deleted again before the poll, leaves an
  // open thread that had an event since the last poll and is not in the list.
  lemma DeletedReplyIsMissed()
    ensures IsRun(MISSED) && Accepted(After(MISSED[..3]), MISSED[3]) && MISSED[3].key == FIRST
    ensures var now := After(MISSED[..5]);
      FIRST in now.threads && now.threads[FIRST].open && !InList(Entries(MISSED[5].subjects, now.cursor), FIRST)
  {
    hide After, Lists, Accepted;
    DigitsOrdered();
    MissedStates();
    MissedPolls();
    assert IsRun(MISSED);
    ListedIff(MISSED, 5, FIRST);
  }
}
