/** The chat history over whole runs: what survives a restart, how large it gets, what it costs, and paging through it. */
module ChatRuns {
  import opened Options
  import opened ChatHistory

  // ----- runs in which the disk takes every write -----

  datatype Action =
    | Append(m: Message)
    | SetFailed(seqNo: nat, failed: bool)
    | ClearDirect(ip: Ip)
    | ClearAll
    | Restart

  function Next(log: Log, a: Action): Log {
    match a
    case Append(m) => Appended(log, m, true)
    case SetFailed(seqNo, failed) => log.(entries := Marked(log.entries, seqNo, failed))
    case ClearDirect(ip) => ClearedDirect(log, ip, true)
    case ClearAll => ClearedAll(log, true)
    case Restart => Loaded(log.file)
  }

  function Run(log: Log, actions: seq<Action>): Log {
    if actions == [] then log else Next(Run(log, actions[..|actions| - 1]), actions[|actions| - 1])
  }

  ghost predicate Increasing(ms: seq<Message>) {
    forall i, j | 0 <= i < j < |ms| :: ms[i].seqNo < ms[j].seqNo
  }

  /** Reading the file back gives what is in memory, but for the marks of failure. */
  ghost predicate Mirrored(log: Log) {
    Newest(Readable(log.file)) == PersistedAll(log.entries) && log.fileLines == |log.file|
  }

  ghost predicate Sound(log: Log) {
    && Mirrored(log) && |log.entries| <= MAX_HISTORY
    && Increasing(log.entries) && log.nextSeq >= 1 && forall m <- log.entries :: 1 <= m.seqNo < log.nextSeq
  }

  lemma {:induction false} LinesAreReadable(ms: seq<Message>)
    ensures Readable(LinesOf(ms)) == PersistedAll(ms)
  {
    if ms != [] {
      LinesAreReadable(ms[..|ms| - 1]);
      assert LinesOf(ms)[..|ms| - 1] == LinesOf(ms[..|ms| - 1]);
    }
  }

  lemma RewrittenIsSound(log: Log)
    requires |log.entries| <= MAX_HISTORY
    ensures Mirrored(Rewritten(log, true))
  {
    LinesAreReadable(log.entries);
  }

  lemma NewestOfMore(ms: seq<Message>, x: Message)
    ensures Newest(ms + [x]) == if |ms| >= MAX_HISTORY then Newest(ms)[1..] + [x] else Newest(ms) + [x]
  {
  }

  lemma PersistedOfMore(ms: seq<Message>, e: Message)
    ensures PersistedAll(ms + [e]) == PersistedAll(ms) + [Persisted(e)]
    ensures ms != [] ==> PersistedAll((ms + [e])[1..]) == PersistedAll(ms)[1..] + [Persisted(e)]
  {
  }

  lemma AppendMirrors(log: Log, m: Message)
    requires Mirrored(log) && |log.entries| <= MAX_HISTORY
    ensures Mirrored(Appended(log, m, true))
  {
    var e := m.(seqNo := log.nextSeq);
    if log.fileLines >= REWRITE_THRESHOLD {
      RewrittenIsSound(Pushed(log, m));
    } else {
      var file := log.file + [Some(Persisted(e))];
      assert file[..|file| - 1] == log.file;
      assert Readable(file) == Readable(log.file) + [Persisted(e)];
      NewestOfMore(Readable(log.file), Persisted(e));
      PersistedOfMore(log.entries, e);
    }
  }

  lemma {:induction false} MarkedKeepsNumbers(ms: seq<Message>, seqNo: nat, failed: bool)
    ensures |Marked(ms, seqNo, failed)| == |ms|
    ensures forall i | 0 <= i < |ms| :: Marked(ms, seqNo, failed)[i].seqNo == ms[i].seqNo
  {
    if ms != [] {
      MarkedKeepsNumbers(ms[1..], seqNo, failed);
    }
  }

  lemma {:induction false} WithoutKeepsOrder(ms: seq<Message>, ip: Ip)
    requires Increasing(ms)
    ensures Increasing(WithoutDirect(ms, ip))
  {
    if ms != [] {
      WithoutKeepsOrder(ms[..|ms| - 1], ip);
      var kept := WithoutDirect(ms[..|ms| - 1], ip);
      assert forall i | 0 <= i < |kept| :: kept[i] in kept && kept[i] in ms[..|ms| - 1];
    }
  }

  lemma IncreasingGrows(ms: seq<Message>, e: Message)
    requires Increasing(ms) && forall m <- ms :: m.seqNo < e.seqNo
    ensures Increasing(ms + [e])
  {
    assert forall i | 0 <= i < |ms| :: ms[i] in ms;
  }

  lemma PushedIsIncreasing(log: Log, m: Message)
    requires Increasing(log.entries) && log.nextSeq >= 1 && forall m <- log.entries :: 1 <= m.seqNo < log.nextSeq
    ensures Increasing(Pushed(log, m).entries)
    ensures forall x <- Pushed(log, m).entries :: 1 <= x.seqNo <= log.nextSeq
  {
    IncreasingGrows(log.entries, m.(seqNo := log.nextSeq));
  }

  lemma AppendIsSound(log: Log, m: Message)
    requires Sound(log)
    ensures Sound(Appended(log, m, true))
  {
    AppendMirrors(log, m);
    PushedIsIncreasing(log, m);
    var log' := Appended(log, m, true);
    assert log'.entries == Pushed(log, m).entries && log'.nextSeq == log.nextSeq + 1;
  }

  lemma MarkIsSound(log: Log, seqNo: nat, failed: bool)
    requires Sound(log)
    ensures Sound(log.(entries := Marked(log.entries, seqNo, failed)))
  {
    MarkedKeepsNumbers(log.entries, seqNo, failed);
    assert forall i | 0 <= i < |log.entries| :: log.entries[i] in log.entries;
  }

  lemma ClearIsSound(log: Log, kept: seq<Message>, generation: nat)
    requires Sound(log)
    requires |kept| <= |log.entries| && Increasing(kept) && forall m <- kept :: m in log.entries
    ensures Sound(Rewritten(log.(entries := kept, generation := generation), true))
  {
    RewrittenIsSound(log.(entries := kept, generation := generation));
  }

  lemma PersistedKeepsNumbers(ms: seq<Message>, next: nat)
    requires Increasing(ms) && forall m <- ms :: 1 <= m.seqNo < next
    ensures Increasing(PersistedAll(ms)) && forall m <- PersistedAll(ms) :: 1 <= m.seqNo < next
  {
    assert forall i | 0 <= i < |ms| :: ms[i] in ms;
  }

  lemma PersistedTwice(ms: seq<Message>)
    ensures PersistedAll(PersistedAll(ms)) == PersistedAll(ms)
  {
  }

  lemma LoadedMirrors(log: Log)
    requires Mirrored(log)
    ensures Loaded(log.file).entries == PersistedAll(log.entries) && Mirrored(Loaded(log.file))
  {
    PersistedTwice(log.entries);
  }

  lemma NumbersUpTo(ms: seq<Message>, file: File)
    requires Newest(Readable(file)) == ms && Increasing(ms) && forall m <- ms :: m.seqNo >= 1
    ensures Loaded(file).nextSeq >= 1 && forall m <- ms :: m.seqNo < Loaded(file).nextSeq
  {
  }

  lemma RestartIsSound(log: Log)
    requires Sound(log)
    ensures Sound(Loaded(log.file))
  {
    LoadedMirrors(log);
    PersistedKeepsNumbers(log.entries, log.nextSeq);
    NumbersUpTo(PersistedAll(log.entries), log.file);
  }

  lemma ClearDirectIsSound(log: Log, ip: Ip)
    requires Sound(log)
    ensures Sound(ClearedDirect(log, ip, true))
  {
    WithoutKeepsOrder(log.entries, ip);
    ClearIsSound(log, WithoutDirect(log.entries, ip), log.generation + 1);
  }

  lemma NextIsSound(log: Log, a: Action)
    requires Sound(log)
    ensures Sound(Next(log, a))
  {
    match a
    case Append(m) => AppendIsSound(log, m);
    case SetFailed(seqNo, failed) => MarkIsSound(log, seqNo, failed);
    case ClearDirect(ip) => ClearDirectIsSound(log, ip);
    case ClearAll => ClearIsSound(log, [], log.generation + 1);
    case Restart => RestartIsSound(log);
  }

  /** Whatever happens, a restart finds what memory held, memory stays within its bound, and numbers keep rising. */
  lemma {:induction false} RunIsSound(log: Log, actions: seq<Action>)
    requires Sound(log)
    ensures Sound(Run(log, actions))
    ensures Loaded(Run(log, actions).file).entries == PersistedAll(Run(log, actions).entries)
    ensures |Run(log, actions).entries| <= MAX_HISTORY
  {
    if actions != [] {
      RunIsSound(log, actions[..|actions| - 1]);
      NextIsSound(Run(log, actions[..|actions| - 1]), actions[|actions| - 1]);
    }
  }

  lemma NothingYet()
    ensures Sound(Loaded([])) && Loaded([]).fileLines == 0
  {
  }

  // ----- size and cost of the file -----

  /** How many lines the action writes to the disk. */
  function Cost(log: Log, a: Action): nat {
    match a
    case Append(m) => if log.fileLines >= REWRITE_THRESHOLD then |Next(log, a).entries| else 1
    case ClearDirect(ip) => if Next(log, a).generation != log.generation then |Next(log, a).entries| else 0
    case ClearAll => |Next(log, a).entries|
    case _ => 0
  }

  function TotalCost(log: Log, actions: seq<Action>): nat {
    if actions == [] then 0
    else
      var before := actions[..|actions| - 1];
      TotalCost(log, before) + Cost(Run(log, before), actions[|actions| - 1])
  }

  function Appends(actions: seq<Action>): nat {
    if actions == [] then 0
    else Appends(actions[..|actions| - 1]) + if actions[|actions| - 1].Append? then 1 else 0
  }

  function DirectClears(actions: seq<Action>): nat {
    if actions == [] then 0
    else DirectClears(actions[..|actions| - 1]) + if actions[|actions| - 1].ClearDirect? then 1 else 0
  }

  /** Ten lines are saved up for each line of the file that memory no longer holds. */
  function Saved(log: Log): nat {
    if log.fileLines > MAX_HISTORY then 10 * (log.fileLines - MAX_HISTORY) else 0
  }

  lemma AppendIsPaid(log: Log, m: Message)
    requires |log.entries| <= MAX_HISTORY
    ensures Cost(log, Append(m)) + Saved(Appended(log, m, true)) <= Saved(log) + 11
    ensures log.fileLines <= REWRITE_THRESHOLD ==> Appended(log, m, true).fileLines <= REWRITE_THRESHOLD
  {
    assert |Appended(log, m, true).entries| <= MAX_HISTORY;
  }

  lemma ClearIsPaid(log: Log, a: Action)
    requires |log.entries| <= MAX_HISTORY && (a.ClearDirect? || a.ClearAll?)
    ensures Cost(log, a) + Saved(Next(log, a)) <= Saved(log) + if a.ClearDirect? then MAX_HISTORY else 0
    ensures log.fileLines <= REWRITE_THRESHOLD ==> Next(log, a).fileLines <= REWRITE_THRESHOLD
  {
  }

  lemma StepIsPaid(log: Log, a: Action)
    requires Sound(log)
    ensures Cost(log, a) + Saved(Next(log, a)) <= Saved(log) + (if a.Append? then 11 else 0) + (if a.ClearDirect? then MAX_HISTORY else 0)
    ensures log.fileLines <= REWRITE_THRESHOLD ==> Next(log, a).fileLines <= REWRITE_THRESHOLD
  {
    match a
    case Append(m) => AppendIsPaid(log, m);
    case ClearDirect(_) => ClearIsPaid(log, a);
    case ClearAll => ClearIsPaid(log, a);
    case SetFailed(_, _) =>
    case Restart => assert Loaded(log.file).fileLines == log.fileLines;
  }

  /**
    A file that starts within the threshold stays there, and `n` appends write at most 11 n lines,
    however often the file is rewritten; only the clearing of one-to-one histories costs extra.
  */
  lemma {:induction false} WritesAreAmortized(log: Log, actions: seq<Action>)
    requires Sound(log)
    ensures TotalCost(log, actions) + Saved(Run(log, actions)) <= Saved(log) + 11 * Appends(actions) + MAX_HISTORY * DirectClears(actions)
    ensures log.fileLines <= REWRITE_THRESHOLD ==> |Run(log, actions).file| <= REWRITE_THRESHOLD
  {
    RunIsSound(log, actions);
    if actions != [] {
      var before := actions[..|actions| - 1];
      WritesAreAmortized(log, before);
      RunIsSound(log, before);
      StepIsPaid(Run(log, before), actions[|actions| - 1]);
    }
  }

  // ----- numbering across restarts -----

  ghost predicate NewestIsThere(log: Log) {
    if log.entries == [] then log.nextSeq == 1 else log.entries[|log.entries| - 1].seqNo == log.nextSeq - 1
  }

  /** Numbering goes on where it was exactly if the newest entry has not been cleared away. */
  lemma NumberingSurvivesIff(log: Log)
    requires Sound(log)
    ensures Loaded(log.file).nextSeq == log.nextSeq <==> NewestIsThere(log)
  {
    assert Loaded(log.file).entries == PersistedAll(log.entries);
  }

  /** Clearing a one-to-one history alone loses the numbering exactly if the newest entry was part of it. */
  lemma ClearDirectKeepsNumberingIff(log: Log, ip: Ip)
    requires Sound(log) && NewestIsThere(log) && log.entries != []
    ensures Loaded(ClearedDirect(log, ip, true).file).nextSeq == log.nextSeq <==> !IsDirectWith(log.entries[|log.entries| - 1], ip)
  {
    ClearDirectIsSound(log, ip);
    NumberingSurvivesIff(ClearedDirect(log, ip, true));
    NewestGoesIff(log, ip);
  }

  lemma LastKept(ms: seq<Message>, ip: Ip)
    requires ms != [] && Increasing(ms)
    ensures
      var last, kept := ms[|ms| - 1], WithoutDirect(ms, ip);
      if IsDirectWith(last, ip) then |kept| < |ms| && forall m <- kept :: m.seqNo < last.seqNo
      else kept != [] && kept[|kept| - 1] == last
  {
    var n := |ms| - 1;
    forall m <- WithoutDirect(ms[..n], ip)
      ensures m.seqNo < ms[n].seqNo
    {
      assert m in ms[..n];
    }
  }

  lemma NewestGoesIff(log: Log, ip: Ip)
    requires Sound(log) && NewestIsThere(log) && log.entries != []
    ensures NewestIsThere(ClearedDirect(log, ip, true)) <==> !IsDirectWith(log.entries[|log.entries| - 1], ip)
  {
    LastKept(log.entries, ip);
    var last, kept := log.entries[|log.entries| - 1], WithoutDirect(log.entries, ip);
    assert last.seqNo == log.nextSeq - 1 && last in log.entries;
    if IsDirectWith(last, ip) {
      assert ClearedDirect(log, ip, true).entries == kept;
      assert kept != [] ==> kept[|kept| - 1] in kept;
    }
  }

  /** The daemon never clears without putting a note of its own behind (crates/peercove-cli/src/daemon.rs, 607-641, and chat.rs, 100-120). */
  datatype DaemonStep =
    | Said(m: Message)
    | Flagged(seqNo: nat, failed: bool)
    | Replaced(ip: Ip, note: Message)
    | Wiped(note: Message)
    | Restarted

  lemma AppendLeavesNewest(log: Log, m: Message)
    ensures NewestIsThere(Next(log, Append(m)))
  {
  }

  function After(log: Log, step: DaemonStep): Log {
    match step
    case Said(m) => Next(log, Append(m))
    case Flagged(seqNo, failed) => Next(log, SetFailed(seqNo, failed))
    case Replaced(ip, note) => Next(Next(log, ClearDirect(ip)), Append(note))
    case Wiped(note) => Next(Next(log, ClearAll), Append(note))
    case Restarted => Next(log, Restart)
  }

  function AfterAll(steps: seq<DaemonStep>): Log {
    if steps == [] then Loaded([]) else After(AfterAll(steps[..|steps| - 1]), steps[|steps| - 1])
  }

  lemma TwoAreSound(log: Log, a: Action, b: Action)
    requires Sound(log)
    ensures Sound(Next(Next(log, a), b))
  {
    NextIsSound(log, a);
    NextIsSound(Next(log, a), b);
  }

  lemma StepIsSound(log: Log, step: DaemonStep)
    requires Sound(log)
    ensures Sound(After(log, step))
  {
    match step
    case Said(m) => NextIsSound(log, Append(m));
    case Flagged(seqNo, failed) => NextIsSound(log, SetFailed(seqNo, failed));
    case Replaced(ip, note) => TwoAreSound(log, ClearDirect(ip), Append(note));
    case Wiped(note) => TwoAreSound(log, ClearAll, Append(note));
    case Restarted => NextIsSound(log, Restart);
  }

  lemma StepLeavesNewest(log: Log, step: DaemonStep)
    requires Sound(log) && NewestIsThere(log)
    ensures NewestIsThere(After(log, step))
  {
    match step
    case Replaced(ip, note) => AppendLeavesNewest(Next(log, ClearDirect(ip)), note);
    case Wiped(note) => AppendLeavesNewest(Next(log, ClearAll), note);
    case Flagged(seqNo, failed) => FlagLeavesNewest(log, seqNo, failed);
    case Said(m) => AppendLeavesNewest(log, m);
    case Restarted => RestartKeepsNewest(log);
  }

  lemma FlagLeavesNewest(log: Log, seqNo: nat, failed: bool)
    requires NewestIsThere(log)
    ensures NewestIsThere(log.(entries := Marked(log.entries, seqNo, failed)))
  {
    MarkedKeepsNumbers(log.entries, seqNo, failed);
    SameNumbers(log, Marked(log.entries, seqNo, failed));
  }

  lemma SameNumbers(log: Log, ms: seq<Message>)
    requires NewestIsThere(log) && |ms| == |log.entries|
    requires forall i | 0 <= i < |ms| :: ms[i].seqNo == log.entries[i].seqNo
    ensures NewestIsThere(log.(entries := ms))
  {
  }

  lemma RestartKeepsNewest(log: Log)
    requires Sound(log) && NewestIsThere(log)
    ensures NewestIsThere(Loaded(log.file))
  {
    assert Loaded(log.file).entries == PersistedAll(log.entries);
  }

  /** So at each moment between the daemon's steps, a restart carries on with the next number. */
  lemma {:induction false} NumberingSurvives(steps: seq<DaemonStep>)
    ensures
      var log := AfterAll(steps);
      Sound(log) && NewestIsThere(log) && Loaded(log.file).nextSeq == log.nextSeq
  {
    if steps == [] {
      NothingYet();
    } else {
      var before := steps[..|steps| - 1];
      NumberingSurvives(before);
      StepIsSound(AfterAll(before), steps[|steps| - 1]);
      StepLeavesNewest(AfterAll(before), steps[|steps| - 1]);
    }
    NumberingSurvivesIff(AfterAll(steps));
  }

  // ----- paging -----

  /** What is newer is a tail of the history. */
  lemma {:induction false} NewerIsTail(ms: seq<Message>, after: nat, k: nat)
    requires k <= |ms|
    requires (forall i | 0 <= i < k :: ms[i].seqNo <= after) && forall i | k <= i < |ms| :: ms[i].seqNo > after
    ensures Newer(ms, after) == ms[k..]
  {
    if ms != [] {
      var n := |ms| - 1;
      var front := ms[..n];
      if k <= n {
        NewerIsTail(front, after, k);
        assert ms[k..] == front[k..] + [ms[n]];
      } else {
        NewerIsTail(front, after, n);
        assert front[n..] == ms[k..] == [];
      }
    }
  }

  lemma {:induction false} TailBegin(ms: seq<Message>, after: nat) returns (k: nat)
    requires Increasing(ms)
    ensures k <= |ms|
    ensures (forall i | 0 <= i < k :: ms[i].seqNo <= after) && forall i | k <= i < |ms| :: ms[i].seqNo > after
  {
    k := |ms|;
    while k > 0 && ms[k - 1].seqNo > after
      invariant k <= |ms| && forall i | k <= i < |ms| :: ms[i].seqNo > after
    {
      k := k - 1;
    }
  }

  /** Asking again from the last number received gives what the reply left out. */
  lemma NewerAfterPage(ms: seq<Message>, after: nat, n: nat)
    requires Increasing(ms) && 0 < n <= |Newer(ms, after)|
    ensures Newer(ms, Newer(ms, after)[n - 1].seqNo) == Newer(ms, after)[n..]
  {
    var k := TailBegin(ms, after);
    NewerIsTail(ms, after, k);
    NewerIsTail(ms, ms[k + n - 1].seqNo, k + n);
    assert ms[k..][n..] == ms[k + n..];
  }

  lemma NewerRises(ms: seq<Message>, after: nat)
    requires Increasing(ms)
    ensures Increasing(Newer(ms, after)) && forall m <- Newer(ms, after) :: m.seqNo > after && m in ms
  {
    var k := TailBegin(ms, after);
    NewerIsTail(ms, after, k);
  }

  /** The client takes from a page what it does not have yet, which is all of it. */
  method TakePage(had: seq<Message>, after: nat, page: seq<Message>) returns (messages: seq<Message>, lastSeq: nat)
    requires Increasing(page) && forall m <- page :: m.seqNo > after
    ensures messages == had + page
    ensures lastSeq == if page == [] then after else page[|page| - 1].seqNo
  {
    messages, lastSeq := had, after;
    for i := 0 to |page|
      invariant messages == had + page[..i]
      invariant lastSeq == if i == 0 then after else page[i - 1].seqNo
    {
      if page[i].seqNo > lastSeq {
        messages := messages + [page[i]];
        lastSeq := page[i].seqNo;
      }
    }
  }

  lemma FrontRises(newer: seq<Message>, page: seq<Message>, after: nat)
    requires page <= newer && Increasing(newer) && forall m <- newer :: m.seqNo > after
    ensures Increasing(page) && forall m <- page :: m.seqNo > after
  {
    assert page == newer[..|page|];
  }

  lemma PageRises(ms: seq<Message>, after: nat)
    requires Increasing(ms)
    ensures
      var page := Fetched(ms, after);
      && Increasing(page) && (forall m <- page :: m.seqNo > after) && (page == [] ==> Newer(ms, after) == [])
      && (page != [] ==> Newer(ms, after) == page + Newer(ms, page[|page| - 1].seqNo))
  {
    var page, newer := Fetched(ms, after), Newer(ms, after);
    NewerRises(ms, after);
    FrontRises(newer, page, after);
    if page != [] {
      FrontAndTail(newer, page);
      NewerAfterPage(ms, after, |page|);
    }
  }

  lemma FrontAndTail(newer: seq<Message>, page: seq<Message>)
    requires page <= newer && page != []
    ensures newer == page + newer[|page|..] && page[|page| - 1] == newer[|page| - 1]
  {
  }

  ghost predicate Numbered(ms: seq<Message>, next: nat) {
    Increasing(ms) && forall m <- ms :: m.seqNo < next
  }

  lemma NothingNewer(ms: seq<Message>, next: nat, from: nat)
    requires Numbered(ms, next) && from + 1 >= next
    ensures Newer(ms, from) == []
  {
    assert forall i | 0 <= i < |ms| :: ms[i] in ms;
    NewerIsTail(ms, from, |ms|);
  }

  method NextPage(log: ChatLog, had: seq<Message>, after: nat) returns (done: bool, messages: seq<Message>, lastSeq: nat)
    requires Increasing(log.entries)
    ensures done ==> Newer(log.entries, after) == [] && messages == had && lastSeq == after
    ensures !done ==> messages != [] && lastSeq == messages[|messages| - 1].seqNo
    ensures !done ==> messages + Newer(log.entries, lastSeq) == had + Newer(log.entries, after)
    ensures !done ==> |Newer(log.entries, lastSeq)| < |Newer(log.entries, after)|
  {
    var latest, page := log.Fetch(after);
    PageRises(log.entries, after);
    if page == [] {
      return true, had, after;
    }
    done := false;
    messages, lastSeq := TakePage(had, after, page);
    ghost var rest := Newer(log.entries, lastSeq);
    assert messages + rest == had + (page + rest);
  }

  /**
    A client that keeps asking from the last number it has (apps/peercove-ui/src/chat.ts, 96-108)
    comes to an end with every entry newer than where it began, each once and in order.
  */
  method CatchUp(log: ChatLog, chatSeq: int, from: nat) returns (messages: seq<Message>, lastSeq: nat)
    requires Numbered(log.entries, log.nextSeq) && chatSeq == log.nextSeq - 1
    ensures messages == Newer(log.entries, from)
    ensures lastSeq == if messages == [] then from else messages[|messages| - 1].seqNo
  {
    messages, lastSeq := [], from;
    var done := false;
    while lastSeq < chatSeq && !done
      invariant messages + Newer(log.entries, lastSeq) == Newer(log.entries, from)
      invariant lastSeq == if messages == [] then from else messages[|messages| - 1].seqNo
      invariant done ==> Newer(log.entries, lastSeq) == []
      decreases |Newer(log.entries, lastSeq)|, !done
    {
      done, messages, lastSeq := NextPage(log, messages, lastSeq);
    }
    if lastSeq >= chatSeq {
      NothingNewer(log.entries, log.nextSeq, lastSeq);
    }
  }
}
