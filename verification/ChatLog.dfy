/**
  The chat history of one network (crates/peercove-cli/src/chat.rs, 375-555): the newest entries in
  memory, mirrored line by line in a file that is rewritten now and then. `file` stands for the file
  on disk, None for a line that cannot be read; `writable` says whether the disk takes a write.
*/
module ChatHistory {
  import opened Options

  type Ip = nat

  const MAX_HISTORY: nat := 10_000
  const REWRITE_THRESHOLD: nat := 11_000
  const MAX_MESSAGES_PER_REPLY: nat := 200
  const MAX_BYTES_PER_REPLY: nat := 131_072

  datatype Scope = Direct | Network | Group

  datatype Message = Message(
    seqNo: nat,
    id: string,
    scope: Scope,
    group: Option<string>,
    from: Ip,
    to: Option<Ip>,
    text: seq<Byte>,
    failed: bool)

  type File = seq<Option<Message>>

  datatype Log = Log(entries: seq<Message>, fileLines: nat, nextSeq: nat, generation: nat, file: File)

  // ----- what each operation does -----

  /** The mark of a failed delivery never reaches the disk. */
  function Persisted(m: Message): Message {
    m.(failed := false)
  }

  function PersistedAll(ms: seq<Message>): (r: seq<Message>)
    ensures |r| == |ms| && forall i | 0 <= i < |ms| :: r[i] == Persisted(ms[i])
  {
    seq(|ms|, i requires 0 <= i < |ms| => Persisted(ms[i]))
  }

  function LinesOf(ms: seq<Message>): (r: File)
    ensures |r| == |ms| && forall i | 0 <= i < |ms| :: r[i] == Some(Persisted(ms[i]))
  {
    seq(|ms|, i requires 0 <= i < |ms| => Some(Persisted(ms[i])))
  }

  function Readable(file: File): seq<Message> {
    if file == [] then []
    else
      var last := file[|file| - 1];
      Readable(file[..|file| - 1]) + if last.Some? then [last.value] else []
  }

  function Newest(ms: seq<Message>): seq<Message> {
    if |ms| > MAX_HISTORY then ms[|ms| - MAX_HISTORY..] else ms
  }

  function Loaded(file: File): Log {
    var entries := Newest(Readable(file));
    Log(entries, |file|, if entries == [] then 1 else entries[|entries| - 1].seqNo + 1, 0, file)
  }

  function Rewritten(log: Log, writable: bool): Log {
    if writable then log.(file := LinesOf(log.entries), fileLines := |log.entries|) else log
  }

  function Written(log: Log, m: Message, writable: bool): Log {
    if log.fileLines >= REWRITE_THRESHOLD then Rewritten(log, writable)
    else if writable then log.(file := log.file + [Some(Persisted(m))], fileLines := log.fileLines + 1)
    else log
  }

  function Pushed(log: Log, m: Message): Log {
    var all := log.entries + [m.(seqNo := log.nextSeq)];
    log.(entries := if |all| > MAX_HISTORY then all[1..] else all, nextSeq := log.nextSeq + 1)
  }

  function Appended(log: Log, m: Message, writable: bool): Log {
    Written(Pushed(log, m), m.(seqNo := log.nextSeq), writable)
  }

  function Marked(ms: seq<Message>, seqNo: nat, failed: bool): (r: seq<Message>)
    ensures PersistedAll(r) == PersistedAll(ms)
  {
    if ms == [] then []
    else if ms[0].seqNo == seqNo then [ms[0].(failed := failed)] + ms[1..]
    else [ms[0]] + Marked(ms[1..], seqNo, failed)
  }

  predicate IsDirectWith(m: Message, ip: Ip) {
    m.scope == Direct && (m.from == ip || m.to == Some(ip))
  }

  function WithoutDirect(ms: seq<Message>, ip: Ip): (r: seq<Message>)
    ensures |r| <= |ms| && (|r| == |ms| ==> r == ms) && forall m :: m in r <==> m in ms && !IsDirectWith(m, ip)
  {
    if ms == [] then []
    else
      var last := ms[|ms| - 1];
      assert ms == ms[..|ms| - 1] + [last];
      WithoutDirect(ms[..|ms| - 1], ip) + if IsDirectWith(last, ip) then [] else [last]
  }

  function ClearedDirect(log: Log, ip: Ip, writable: bool): Log {
    var kept := WithoutDirect(log.entries, ip);
    if |kept| == |log.entries| then log
    else Rewritten(log.(entries := kept, generation := log.generation + 1), writable)
  }

  function ClearedAll(log: Log, writable: bool): Log {
    Rewritten(log.(entries := [], generation := log.generation + 1), writable)
  }

  function Newer(ms: seq<Message>, after: nat): seq<Message> {
    if ms == [] then []
    else
      var last := ms[|ms| - 1];
      Newer(ms[..|ms| - 1], after) + if last.seqNo > after then [last] else []
  }

  class ChatLog {
    var entries: seq<Message>
    var fileLines: nat
    var nextSeq: nat
    var generation: nat
    var file: File

    function View(): Log
      reads this
    {
      Log(entries, fileLines, nextSeq, generation, file)
    }

    constructor Load(disk: File)
      ensures View() == Loaded(disk)
    {
      var read := ReadFile(disk);
      entries, fileLines, generation, file := read, |disk|, 0, disk;
      nextSeq := if read == [] then 1 else read[|read| - 1].seqNo + 1;
    }

    static method ReadFile(disk: File) returns (read: seq<Message>)
      ensures read == Newest(Readable(disk))
    {
      read := [];
      for i := 0 to |disk|
        invariant read == Readable(disk[..i])
      {
        assert disk[..i + 1][..i] == disk[..i];
        if disk[i].Some? {
          read := read + [disk[i].value];
        }
      }
      assert disk[..|disk|] == disk;
      ghost var all := read;
      while |read| > MAX_HISTORY
        invariant |read| <= |all| && read == all[|all| - |read|..]
        invariant |read| >= |Newest(all)|
      {
        read := read[1..];
      }
    }

    method Append(m: Message, writable: bool) returns (stored: Message)
      modifies this
      ensures View() == Appended(old(View()), m, writable)
      ensures stored == m.(seqNo := old(nextSeq))
    {
      stored := m.(seqNo := nextSeq);
      nextSeq := nextSeq + 1;
      entries := entries + [stored];
      if |entries| > MAX_HISTORY {
        entries := entries[1..];
      }
      if fileLines >= REWRITE_THRESHOLD {
        Rewrite(writable);
      } else if writable {
        file := file + [Some(stored.(failed := false))];
        fileLines := fileLines + 1;
      }
    }

    method Rewrite(writable: bool)
      modifies this`file, this`fileLines
      ensures View() == Rewritten(old(View()), writable)
    {
      var lines: File := [];
      for i := 0 to |entries|
        invariant |lines| == i && forall k | 0 <= k < i :: lines[k] == Some(Persisted(entries[k]))
        invariant file == old(file) && fileLines == old(fileLines)
      {
        lines := lines + [Some(entries[i].(failed := false))];
      }
      if writable {
        assert lines == LinesOf(entries);
        file := lines;
        fileLines := |entries|;
      }
    }

    /** Only the first entry of that number, and only in memory. */
    method SetFailed(seqNo: nat, failed: bool)
      modifies this`entries
      ensures View() == old(View()).(entries := Marked(old(entries), seqNo, failed))
    {
      var i := FirstOfNumber(entries, seqNo);
      MarkedAt(entries, seqNo, failed, i);
      if i < |entries| {
        entries := entries[i := entries[i].(failed := failed)];
      }
    }

    static method FirstOfNumber(ms: seq<Message>, seqNo: nat) returns (i: nat)
      ensures i <= |ms| && (i < |ms| ==> ms[i].seqNo == seqNo) && forall k | 0 <= k < i :: ms[k].seqNo != seqNo
    {
      i := 0;
      while i < |ms| && ms[i].seqNo != seqNo
        invariant i <= |ms| && forall k | 0 <= k < i :: ms[k].seqNo != seqNo
      {
        i := i + 1;
      }
    }

    method ClearDirect(ip: Ip, writable: bool) returns (changed: bool)
      modifies this
      ensures View() == ClearedDirect(old(View()), ip, writable)
      ensures changed == exists m <- old(entries) :: IsDirectWith(m, ip)
      ensures forall m :: m in entries <==> m in old(entries) && !(m.scope == Direct && (m.from == ip || m.to == Some(ip)))
    {
      var kept := Retained(entries, ip);
      changed := |kept| != |entries|;
      SomethingGoes(entries, ip);
      if changed {
        entries := kept;
        generation := generation + 1;
        Rewrite(writable);
      }
    }

    static method Retained(ms: seq<Message>, ip: Ip) returns (kept: seq<Message>)
      ensures kept == WithoutDirect(ms, ip)
    {
      kept := [];
      for i := 0 to |ms|
        invariant kept == WithoutDirect(ms[..i], ip)
      {
        NextKept(ms, ip, i);
        if !IsDirectWith(ms[i], ip) {
          kept := kept + [ms[i]];
        }
      }
      assert ms[..|ms|] == ms;
    }

    method ClearAll(writable: bool)
      modifies this
      ensures View() == ClearedAll(old(View()), writable)
    {
      entries := [];
      generation := generation + 1;
      Rewrite(writable);
    }

    method ContainsId(id: string) returns (found: bool)
      ensures found == exists m <- entries :: m.id == id
    {
      for i := 0 to |entries|
        invariant forall k | 0 <= k < i :: entries[k].id != id
      {
        if entries[i].id == id {
          return true;
        }
      }
      return false;
    }

    method Fetch(after: nat) returns (latest: int, messages: seq<Message>)
      ensures latest == nextSeq - 1 && messages == Fetched(entries, after)
    {
      latest := nextSeq - 1;
      messages := Page(entries, after);
    }

    static method Page(es: seq<Message>, after: nat) returns (messages: seq<Message>)
      ensures messages == Fetched(es, after)
    {
      messages := [];
      var bytes: nat, i: nat := 0, 0;
      assert es[..0] == [];
      while i < |es|
        invariant i <= |es| && Reading(es, after, i, messages, bytes)
      {
        if es[i].seqNo > after {
          var more := bytes + |es[i].text| + 256;
          if messages != [] && (|messages| >= MAX_MESSAGES_PER_REPLY || more > MAX_BYTES_PER_REPLY) {
            StopsHere(es, after, i, messages, bytes);
            return;
          }
          ReadOne(es, after, i, messages, more);
          messages, bytes := messages + [es[i]], more;
        } else {
          PassOver(es, after, i, messages, bytes);
        }
        i := i + 1;
      }
      assert es[..|es|] == es;
      FetchedIs(es, after, messages);
    }
  }

  lemma {:induction false} MarkedAt(ms: seq<Message>, seqNo: nat, failed: bool, i: nat)
    requires i <= |ms| && forall k | 0 <= k < i :: ms[k].seqNo != seqNo
    requires i < |ms| ==> ms[i].seqNo == seqNo
    ensures Marked(ms, seqNo, failed) == if i < |ms| then ms[i := ms[i].(failed := failed)] else ms
  {
    if i > 0 {
      MarkedAt(ms[1..], seqNo, failed, i - 1);
    }
  }

  lemma NextKept(ms: seq<Message>, ip: Ip, i: nat)
    requires i < |ms|
    ensures WithoutDirect(ms[..i + 1], ip) == WithoutDirect(ms[..i], ip) + if IsDirectWith(ms[i], ip) then [] else [ms[i]]
  {
    assert ms[..i + 1][..i] == ms[..i];
  }

  lemma {:induction false} SomethingGoes(ms: seq<Message>, ip: Ip)
    ensures |WithoutDirect(ms, ip)| != |ms| <==> exists m <- ms :: IsDirectWith(m, ip)
  {
    if ms != [] {
      assert ms == ms[..|ms| - 1] + [ms[|ms| - 1]];
      SomethingGoes(ms[..|ms| - 1], ip);
    }
  }

  // ----- one reply -----

  /** The reply so far holds all newer entries among the first `i`, and each of them fits. */
  ghost predicate Reading(es: seq<Message>, after: nat, i: nat, messages: seq<Message>, bytes: nat)
    requires i <= |es|
  {
    && messages == Newer(es[..i], after) && messages <= Newer(es, after) && bytes == Weight(messages)
    && forall k: nat | k < |messages| :: Fits(Newer(es, after), k)
  }

  lemma ReadOne(es: seq<Message>, after: nat, i: nat, messages: seq<Message>, bytes: nat)
    requires i < |es| && es[i].seqNo > after
    requires Reading(es, after, i, messages, Weight(messages)) && bytes == Weight(messages) + |es[i].text| + 256
    requires messages == [] || (|messages| < MAX_MESSAGES_PER_REPLY && bytes <= MAX_BYTES_PER_REPLY)
    ensures Reading(es, after, i + 1, messages + [es[i]], bytes)
  {
    NextNewer(es, after, i);
    MoreFit(Newer(es, after), messages, es[i]);
  }

  lemma PassOver(es: seq<Message>, after: nat, i: nat, messages: seq<Message>, bytes: nat)
    requires i < |es| && es[i].seqNo <= after && Reading(es, after, i, messages, bytes)
    ensures Reading(es, after, i + 1, messages, bytes)
  {
    NextNewer(es, after, i);
  }

  lemma StopsHere(es: seq<Message>, after: nat, i: nat, messages: seq<Message>, bytes: nat)
    requires i < |es| && es[i].seqNo > after && Reading(es, after, i, messages, bytes) && messages != []
    requires |messages| >= MAX_MESSAGES_PER_REPLY || bytes + |es[i].text| + 256 > MAX_BYTES_PER_REPLY
    ensures messages == Fetched(es, after)
  {
    NextNewer(es, after, i);
    FetchedIs(es, after, messages);
  }

  lemma MoreFit(newer: seq<Message>, messages: seq<Message>, e: Message)
    requires messages + [e] <= newer && Weight(messages + [e]) == Weight(messages) + |e.text| + 256
    requires forall k: nat | k < |messages| :: Fits(newer, k)
    requires messages == [] || (|messages| < MAX_MESSAGES_PER_REPLY && Weight(messages + [e]) <= MAX_BYTES_PER_REPLY)
    ensures forall k: nat | k < |messages + [e]| :: Fits(newer, k)
  {
    LastFits(newer, messages + [e]);
  }

  lemma LastFits(newer: seq<Message>, more: seq<Message>)
    requires more != [] && more <= newer
    requires |more| == 1 || (|more| <= MAX_MESSAGES_PER_REPLY && Weight(more) <= MAX_BYTES_PER_REPLY)
    ensures Fits(newer, |more| - 1)
  {
    assert newer[..|more|] == more;
  }

  function Weight(ms: seq<Message>): nat {
    if ms == [] then 0 else Weight(ms[..|ms| - 1]) + |ms[|ms| - 1].text| + 256
  }

  /** The entry at `k` still goes into the reply, after the `k` before it. */
  predicate Fits(ms: seq<Message>, k: nat)
    requires k < |ms|
  {
    k == 0 || (k < MAX_MESSAGES_PER_REPLY && Weight(ms[..k + 1]) <= MAX_BYTES_PER_REPLY)
  }

  function Taken(ms: seq<Message>, count: nat, bytes: nat): (r: seq<Message>)
    ensures r <= ms && (count == 0 && ms != [] ==> r != [])
  {
    if ms == [] then []
    else
      var sum := bytes + |ms[0].text| + 256;
      if count > 0 && (count >= MAX_MESSAGES_PER_REPLY || sum > MAX_BYTES_PER_REPLY) then []
      else [ms[0]] + Taken(ms[1..], count + 1, sum)
  }

  function Fetched(ms: seq<Message>, after: nat): seq<Message> {
    Taken(Newer(ms, after), 0, 0)
  }

  /** A reply runs up to the first entry that does not fit. */
  lemma {:induction false} TakenFrom(ms: seq<Message>, k: nat, n: nat)
    requires k <= n <= |ms| && (forall j | k <= j < n :: Fits(ms, j)) && (n < |ms| ==> !Fits(ms, n))
    ensures Taken(ms[k..], k, Weight(ms[..k])) == ms[k..n]
    decreases n - k
  {
    if k < |ms| {
      TakenStep(ms, k);
    }
    if k < n {
      assert Fits(ms, k);
      TakenFrom(ms, k + 1, n);
      assert ms[k..n] == [ms[k]] + ms[k + 1..n];
    } else {
      assert ms[k..n] == [] && (k == |ms| ==> ms[k..] == []);
    }
  }

  lemma TakenStep(ms: seq<Message>, k: nat)
    requires k < |ms|
    ensures Taken(ms[k..], k, Weight(ms[..k])) ==
      if Fits(ms, k) then [ms[k]] + Taken(ms[k + 1..], k + 1, Weight(ms[..k + 1])) else []
  {
    WeightStep(ms, k);
    assert ms[k..][1..] == ms[k + 1..];
  }

  lemma FetchedIs(ms: seq<Message>, after: nat, page: seq<Message>)
    requires page <= Newer(ms, after) && forall k: nat | k < |page| :: Fits(Newer(ms, after), k)
    requires |page| < |Newer(ms, after)| ==> !Fits(Newer(ms, after), |page|)
    ensures Fetched(ms, after) == page
  {
    var newer := Newer(ms, after);
    TakenFrom(newer, 0, |page|);
    assert newer[0..] == newer && newer[..0] == [];
  }

  lemma WeightStep(ms: seq<Message>, k: nat)
    requires k < |ms|
    ensures Weight(ms[..k + 1]) == Weight(ms[..k]) + |ms[k].text| + 256
  {
    assert ms[..k + 1][..k] == ms[..k];
  }

  lemma NextNewer(ms: seq<Message>, after: nat, i: nat)
    requires i < |ms|
    ensures
      var before, newer := Newer(ms[..i], after), Newer(ms, after);
      && Newer(ms[..i + 1], after) == before + (if ms[i].seqNo > after then [ms[i]] else [])
      && Newer(ms[..i + 1], after) <= newer
      && (ms[i].seqNo > after ==>
            |before| < |newer| && newer[..|before| + 1] == before + [ms[i]]
            && Weight(newer[..|before| + 1]) == Weight(before) + |ms[i].text| + 256)
  {
    assert ms[..i + 1][..i] == ms[..i];
    NewerGrows(ms, after, i + 1);
    if ms[i].seqNo > after {
      var before := Newer(ms[..i], after);
      assert (before + [ms[i]])[..|before|] == before;
    }
  }

  lemma {:induction false} NewerGrows(ms: seq<Message>, after: nat, i: nat)
    requires i <= |ms|
    ensures Newer(ms[..i], after) <= Newer(ms, after)
    decreases |ms| - i
  {
    if i < |ms| {
      assert ms[..i + 1][..i] == ms[..i];
      NewerGrows(ms, after, i + 1);
    } else {
      assert ms[..i] == ms;
    }
  }
}
