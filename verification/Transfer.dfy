/**
  Sending and receiving one file (crates/peercove-cli/src/msg.rs, 701-804 and 916-1077). A hash is
  modelled by the very bytes hashed, so equal hashes mean equal contents. How many bytes one read
  yields, and when the connection breaks, is left open.
*/
module Transfer {
  import opened Options
  import Numerals

  type Bytes = seq<Byte>

  const CHUNK: nat := 65_536

  datatype Hash = Sha256(content: Bytes)

  function Min(a: nat, b: nat): nat {
    if a < b then a else b
  }

  function From(content: Bytes, offset: nat): Bytes {
    if offset <= |content| then content[offset..] else []
  }

  /** Some bytes of what is left, at least one unless nothing is left, and no more than fit the buffer. */
  method Read(content: Bytes, at: nat, limit: nat) returns (chunk: Bytes)
    requires at <= |content|
    ensures at + |chunk| <= |content| && chunk == content[at..at + |chunk|]
    ensures |chunk| <= CHUNK && |chunk| <= limit
    ensures chunk == [] <==> at == |content| || limit == 0
  {
    var most := Min(Min(|content| - at, CHUNK), limit);
    var n: nat :| n <= most && (n == 0 ==> most == 0);
    chunk := content[at..at + n];
  }

  // ----- sending -----

  /** How sending ended: with the hash sent, with the connection broken, or with a file that had changed its size. */
  datatype Sent = HashSent(hash: Hash) | Broken | SizeChanged

  /**
    The rest of the file from `offset`, as far as a connection takes it that breaks after `capacity`
    bytes; the hash behind the body counts as one byte more.
  */
  function SentBy(content: Bytes, size: nat, offset: nat, capacity: nat): (Bytes, Sent)
    requires offset <= size
  {
    var rest := From(content, offset);
    (rest[..Min(capacity, |rest|)],
     if |rest| > capacity then Broken
     else if offset + |rest| != size then SizeChanged
     else if |rest| == capacity then Broken
     else HashSent(Sha256(content)))
  }

  method SendBody(content: Bytes, size: nat, offset: nat, capacity: nat) returns (wire: Bytes, result: Sent)
    requires offset <= size
    ensures (wire, result) == SentBy(content, size, offset, capacity)
    ensures wire <= From(content, offset)
    ensures result.HashSent? ==> wire == From(content, offset) && |wire| == size - offset && result.hash == Sha256(content)
  {
    wire := [];
    var hashed: Bytes := [];
    var sent: nat := 0;
    while true
      invariant |hashed| <= |content| && hashed == content[..|hashed|]
      invariant sent == |wire| <= capacity && wire == Between(content, offset, |hashed|)
      decreases |content| - |hashed|
    {
      var chunk := Read(content, |hashed|, CHUNK);
      if chunk == [] {
        break;
      }
      var start := |hashed|;
      hashed := hashed + chunk;
      MoreBetween(content, offset, start, |hashed|);
      if |hashed| > offset {
        var skip := if offset > start then offset - start else 0;
        var out := chunk[skip..];
        if |wire| + |out| > capacity {
          CutOff(content, offset, |hashed|, wire, out, capacity);
          return wire + out[..capacity - |wire|], Broken;
        }
        wire := wire + out;
        sent := sent + |out|;
      }
    }
    AllBetween(content, offset);
    if offset + sent != size {
      return wire, SizeChanged;
    }
    if sent == capacity {
      return wire, Broken;
    }
    return wire, HashSent(Sha256(hashed));
  }

  /** What has gone out once the first `hi` bytes are read. */
  function Between(content: Bytes, lo: nat, hi: nat): Bytes
    requires hi <= |content|
  {
    if hi > lo then content[lo..hi] else []
  }

  lemma MoreBetween(content: Bytes, offset: nat, start: nat, end: nat)
    requires start <= end <= |content|
    ensures
      var skip := if offset > start then offset - start else 0;
      Between(content, offset, end) ==
        if end > offset then Between(content, offset, start) + content[start..end][skip..] else Between(content, offset, start)
  {
    if end > offset {
      var from := if offset > start then offset else start;
      assert content[start..end][from - start..] == content[from..end];
      if start > offset {
        assert content[offset..end] == content[offset..start] + content[start..end];
      }
    }
  }

  lemma CutOff(content: Bytes, offset: nat, end: nat, wire: Bytes, out: Bytes, capacity: nat)
    requires offset < end <= |content| && wire + out == Between(content, offset, end)
    requires |wire| <= capacity < |wire| + |out|
    ensures wire + out[..capacity - |wire|] == From(content, offset)[..capacity]
    ensures |From(content, offset)| > capacity
  {
    assert wire + out[..capacity - |wire|] == (wire + out)[..capacity];
    assert content[offset..end][..capacity] == content[offset..][..capacity];
  }

  lemma AllBetween(content: Bytes, offset: nat)
    ensures Between(content, offset, |content|) == From(content, offset) == From(content, offset)[..|From(content, offset)|]
    ensures content[..|content|] == content
  {
  }

  // ----- receiving -----

  /** What comes in after the receiver said where to go on: bytes of the body, then a hash unless the connection broke first. */
  datatype Tape = Tape(body: Bytes, hash: Option<Hash>)

  datatype Outcome = Complete | ChecksumBroken | Interrupted

  function Grown(part: Bytes, tape: Tape, size: nat): Bytes
    requires |part| <= size
  {
    part + tape.body[..Min(|tape.body|, size - |part|)]
  }

  function OutcomeOf(part: Bytes, tape: Tape, size: nat): Outcome
    requires |part| <= size
  {
    if |part| + |tape.body| != size || tape.hash.None? then Interrupted
    else if tape.hash.value == Sha256(part + tape.body) then Complete
    else ChecksumBroken
  }

  method ReceiveBody(part: Bytes, tape: Tape, size: nat) returns (grown: Bytes, outcome: Outcome)
    requires |part| <= size
    ensures grown == Grown(part, tape, size) && outcome == OutcomeOf(part, tape, size)
  {
    // What is there already goes into the hash first.
    var hashed: Bytes := [];
    while |hashed| < |part|
      invariant |hashed| <= |part| && hashed == part[..|hashed|]
    {
      var chunk := Read(part, |hashed|, CHUNK);
      hashed := hashed + chunk;
    }
    assert hashed == part;
    grown := part;
    var taken: nat := 0;
    while |grown| < size
      invariant taken <= |tape.body| && |part| + taken <= size
      invariant grown == hashed == part + tape.body[..taken]
      decreases size - |grown|
    {
      var chunk := Read(tape.body, taken, size - |grown|);
      if chunk == [] {
        return grown, Interrupted;
      }
      hashed := hashed + chunk;
      grown := grown + chunk;
      taken := taken + |chunk|;
    }
    // Whatever follows the body must be the hash.
    if taken < |tape.body| || tape.hash.None? {
      return grown, Interrupted;
    }
    assert tape.body[..taken] == tape.body;
    outcome := if tape.hash.value == Sha256(hashed) then Complete else ChecksumBroken;
  }

  // ----- the two together -----

  /** What a receiver that holds `part` gets from a sender of `content`. */
  function TapeOf(content: Bytes, size: nat, part: Bytes, capacity: nat): Tape
    requires |part| <= size
  {
    var (wire, result) := SentBy(content, size, |part|, capacity);
    Tape(wire, if result.HashSent? then Some(result.hash) else None)
  }

  /** If nothing breaks, the file is complete exactly if what was there before is a beginning of what is sent. */
  lemma CompleteIff(content: Bytes, part: Bytes, capacity: nat)
    requires |part| <= |content| < capacity
    ensures OutcomeOf(part, TapeOf(content, |content|, part, capacity), |content|) == (if part <= content then Complete else ChecksumBroken)
    ensures part <= content ==> Grown(part, TapeOf(content, |content|, part, capacity), |content|) == content
  {
    var whole := part + content[|part|..];
    assert whole[..|part|] == part;
    assert part <= content ==> whole == content;
    assert whole == content ==> part == content[..|part|];
    assert content[|part|..][..|content| - |part|] == content[|part|..];
  }

  /** Wherever the connection breaks, a beginning of the file stays one, and no byte is taken twice. */
  lemma PrefixStays(content: Bytes, part: Bytes, capacity: nat)
    requires part <= content
    ensures Grown(part, TapeOf(content, |content|, part, capacity), |content|) == content[..|part| + Min(capacity, |content| - |part|)]
  {
    var rest := content[|part|..];
    assert rest[..|rest|] == rest;
    assert content == part + rest;
  }

  /** Complete, whatever was sent and whatever was there: the file is what the sender hashed. */
  lemma CompleteIsWhatWasHashed(content: Bytes, size: nat, part: Bytes, capacity: nat)
    requires |part| <= size
    requires OutcomeOf(part, TapeOf(content, size, part, capacity), size) == Complete
    ensures Grown(part, TapeOf(content, size, part, capacity), size) == content && |content| == size
  {
    var tape := TapeOf(content, size, part, capacity);
    assert tape.body[..|tape.body|] == tape.body;
  }

  // ----- where it is stored -----

  function LastDot(name: string): Option<nat> {
    if name == [] then None
    else if name[|name| - 1] == '.' then Some(|name| - 1)
    else LastDot(name[..|name| - 1])
  }

  /** The `n`th name to try: `notes.txt`, `notes (1).txt`, `notes (2).txt`; a leading dot begins no extension. */
  function CopyName(name: string, n: nat): string {
    if n == 0 then name
    else
      var dot := LastDot(name);
      var cut := if dot.Some? && 0 < dot.value < |name| then dot.value else |name|;
      name[..cut] + " (" + Numerals.Decimal(n) + ")" + name[cut..]
  }

  lemma MiddleIsUnique(a: string, x: string, y: string, b: string)
    requires a + x + b == a + y + b
    ensures x == y
  {
    assert |x| == |y|;
    assert x == (a + x + b)[|a|..|a| + |x|];
    assert y == (a + y + b)[|a|..|a| + |y|];
  }

  lemma CopyNamesDiffer(name: string, m: nat, n: nat)
    requires m < n
    ensures CopyName(name, m) != CopyName(name, n)
  {
    var dot := LastDot(name);
    var cut := if dot.Some? && 0 < dot.value < |name| then dot.value else |name|;
    if m == 0 {
      assert |CopyName(name, n)| > |name|;
    } else if CopyName(name, m) == CopyName(name, n) {
      var a, b := name[..cut] + " (", ")" + name[cut..];
      assert CopyName(name, m) == a + Numerals.Decimal(m) + b;
      assert CopyName(name, n) == a + Numerals.Decimal(n) + b;
      MiddleIsUnique(a, Numerals.Decimal(m), Numerals.Decimal(n), b);
      Numerals.DecimalParses(m);
      Numerals.DecimalParses(n);
      assert false;
    }
  }

  ghost predicate IsFirstFree(taken: set<string>, name: string, free: string) {
    free !in taken && exists n: nat :: free == CopyName(name, n) && forall k: nat | k < n :: CopyName(name, k) in taken
  }
}
