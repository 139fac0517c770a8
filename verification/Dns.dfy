/**
  The built-in name server (crates/peercove-cli/src/dns.rs, 149-308). Texts are sequences of the
  bytes of their UTF-8 form, messages are sequences of bytes.
*/
module Dns {
  import opened Options

  type Bytes = seq<Byte>
  type Ip = n: nat | n < 0x1_0000_0000

  const MAX_NAME: nat := 253
  const MAX_LABEL: nat := 63
  const TTL_SECS: nat := 30
  const DOT: Byte := 46
  const STAR: Byte := 42
  const TYPE_A: nat := 1
  const TYPE_CNAME: nat := 5
  const CLASS_IN: nat := 1
  const NOERROR: Byte := 0
  const FORMERR: Byte := 1
  const NXDOMAIN: Byte := 3
  const NOTIMP: Byte := 4

  datatype Alias = Alias(target: Bytes, ip: Option<Ip>)

  datatype Zone = Zone(a: map<Bytes, Ip>, cname: map<Bytes, Alias>)

  // ----- numbers -----

  function U16(n: nat): (r: Bytes)
    ensures |r| == 2
  {
    [n / 256 % 256, n % 256]
  }

  function U32(n: nat): (r: Bytes)
    ensures |r| == 4
  {
    [n / 0x100_0000 % 256, n / 0x1_0000 % 256, n / 256 % 256, n % 256]
  }

  function ReadU16(b: Bytes, at: nat): nat
    requires at + 2 <= |b|
  {
    256 * (b[at] as nat) + b[at + 1] as nat
  }

  function ReadU32(b: Bytes, at: nat): nat
    requires at + 4 <= |b|
  {
    0x1_0000 * ReadU16(b, at) + ReadU16(b, at + 2)
  }

  // ----- names on the wire (section 4.1.2 of RFC 1035) -----

  predicate NonEmpty(labels: seq<Bytes>) {
    forall i | 0 <= i < |labels| :: labels[i] != []
  }

  /** The labels that begin at `pos`, up to the empty one, and where they end. */
  function ReadLabels(b: Bytes, pos: nat): (r: Option<(seq<Bytes>, nat)>)
    ensures r.Some? ==> pos < r.value.1 <= |b|
    ensures r.Some? ==> NonEmpty(r.value.0)
    decreases |b| - pos
  {
    if pos >= |b| then None
    else
      var len := b[pos] as nat;
      if len == 0 then Some(([], pos + 1))
      else if len > MAX_LABEL || pos + 1 + len > |b| then None
      else
        match ReadLabels(b, pos + 1 + len)
        case None => None
        case Some((rest, end)) => Some(([b[pos + 1..pos + 1 + len]] + rest, end))
  }

  function Lower(b: Byte): Byte {
    if 65 <= b <= 90 then b + 32 else b
  }

  /** A byte beyond ASCII stands for the character of that number, which takes two bytes in UTF-8. */
  function CharOf(b: Byte): Bytes {
    if b < 128 then [b] else [192 + b / 64, 128 + b % 64]
  }

  function LowerAll(piece: Bytes): (r: Bytes)
    ensures |r| >= |piece|
  {
    if piece == [] then [] else LowerAll(piece[..|piece| - 1]) + CharOf(Lower(piece[|piece| - 1]))
  }

  /** The labels in lower case, with dots between them. */
  function TextOf(labels: seq<Bytes>): Bytes {
    if labels == [] then []
    else if |labels| == 1 then LowerAll(labels[0])
    else LowerAll(labels[0]) + [DOT] + TextOf(labels[1..])
  }

  datatype Question = Question(name: Bytes, qtype: nat, qclass: nat, end: nat)

  /** The name that is asked for, and where it ends. */
  function NameOf(query: Bytes): (r: Option<(Bytes, nat)>)
    ensures r.Some? ==> 12 < r.value.1 <= |query|
  {
    match ReadLabels(query, 12)
    case None => None
    case Some((labels, end)) => if |TextOf(labels)| > MAX_NAME then None else Some((TextOf(labels), end))
  }

  function QuestionOf(query: Bytes): (q: Option<Question>)
    ensures q.Some? ==> 16 < q.value.end <= |query|
  {
    match NameOf(query)
    case None => None
    case Some((name, end)) =>
      if end + 4 > |query| then None
      else Some(Question(name, ReadU16(query, end), ReadU16(query, end + 2), end + 4))
  }

  lemma {:induction false} TextOfMore(labels: seq<Bytes>, last: Bytes)
    requires NonEmpty(labels)
    ensures TextOf(labels + [last]) == TextOf(labels) + (if TextOf(labels) == [] then [] else [DOT]) + LowerAll(last)
    ensures labels != [] ==> TextOf(labels) != []
  {
    if |labels| >= 1 {
      assert |LowerAll(labels[0])| > 0;
      assert (labels + [last])[1..] == labels[1..] + [last];
      if |labels| == 1 {
        assert labels[1..] + [last] == [last];
      } else {
        TextOfMore(labels[1..], last);
      }
    } else {
      assert labels + [last] == [last];
    }
  }

  lemma {:induction false} TextOnlyGrows(labels: seq<Bytes>, more: seq<Bytes>)
    requires NonEmpty(labels) && NonEmpty(more)
    ensures |TextOf(labels)| <= |TextOf(labels + more)|
    decreases |more|
  {
    if more == [] {
      assert labels + more == labels;
    } else {
      TextOfMore(labels, more[0]);
      TextOnlyGrows(labels + [more[0]], more[1..]);
      assert labels + [more[0]] + more[1..] == labels + more;
    }
  }

  lemma LowerAllStep(piece: Bytes, i: nat)
    requires i < |piece|
    ensures LowerAll(piece[..i + 1]) == LowerAll(piece[..i]) + CharOf(Lower(piece[i]))
  {
    assert piece[..i + 1][..i] == piece[..i];
  }

  /** What follows the labels read so far. */
  ghost function Onwards(labels: seq<Bytes>, rest: Option<(seq<Bytes>, nat)>): Option<(seq<Bytes>, nat)> {
    match rest
    case None => None
    case Some((more, end)) => Some((labels + more, end))
  }

  lemma NothingRead(rest: Option<(seq<Bytes>, nat)>)
    ensures Onwards([], rest) == rest
  {
    if rest.Some? {
      assert [] + rest.value.0 == rest.value.0;
    }
  }

  lemma NextLabel(query: Bytes, labels: seq<Bytes>, pos: nat)
    requires pos < |query| && 0 < query[pos] <= MAX_LABEL && pos + 1 + query[pos] <= |query|
    ensures
      var piece := query[pos + 1..pos + 1 + query[pos]];
      Onwards(labels, ReadLabels(query, pos)) == Onwards(labels + [piece], ReadLabels(query, pos + 1 + query[pos]))
  {
    var next := ReadLabels(query, pos + 1 + query[pos]);
    if next.Some? {
      var piece := query[pos + 1..pos + 1 + query[pos]];
      assert labels + ([piece] + next.value.0) == labels + [piece] + next.value.0;
    }
  }

  lemma TooLong(query: Bytes, labels: seq<Bytes>, pos: nat)
    requires NonEmpty(labels) && |TextOf(labels)| > MAX_NAME
    requires Onwards(labels, ReadLabels(query, pos)) == ReadLabels(query, 12)
    ensures NameOf(query) == None
  {
    var rest := ReadLabels(query, pos);
    if rest.Some? {
      TextOnlyGrows(labels, rest.value.0);
    }
  }

  lemma NameEnds(query: Bytes, labels: seq<Bytes>, end: nat)
    requires |TextOf(labels)| <= MAX_NAME && Onwards(labels, Some(([], end))) == ReadLabels(query, 12)
    ensures NameOf(query) == Some((TextOf(labels), end))
  {
    assert labels + [] == labels;
  }

  method PushLabel(ghost labels: seq<Bytes>, before: Bytes, piece: Bytes) returns (name: Bytes)
    requires NonEmpty(labels) && before == TextOf(labels)
    ensures name == TextOf(labels + [piece])
  {
    TextOfMore(labels, piece);
    name := before;
    if name != [] {
      name := name + [DOT];
    }
    name := PushLower(name, piece);
  }

  method ParseName(query: Bytes) returns (r: Option<(Bytes, nat)>)
    ensures r == NameOf(query)
  {
    var pos: nat := 12;
    var name: Bytes := [];
    ghost var labels: seq<Bytes> := [];
    NothingRead(ReadLabels(query, 12));
    while true
      invariant |name| <= MAX_NAME && name == TextOf(labels) && NonEmpty(labels)
      invariant Onwards(labels, ReadLabels(query, pos)) == ReadLabels(query, 12)
      decreases |query| - pos
    {
      if pos >= |query| {
        return None;
      }
      var len := query[pos] as nat;
      if len == 0 {
        NameEnds(query, labels, pos + 1);
        return Some((name, pos + 1));
      }
      if len > MAX_LABEL || pos + 1 + len > |query| {
        return None;
      }
      var piece := query[pos + 1..pos + 1 + len];
      NextLabel(query, labels, pos);
      name := PushLabel(labels, name, piece);
      pos := pos + 1 + len;
      labels := labels + [piece];
      if |name| > MAX_NAME {
        TooLong(query, labels, pos);
        return None;
      }
    }
  }

  method ParseQuestion(query: Bytes) returns (q: Option<Question>)
    ensures q == QuestionOf(query)
  {
    var r := ParseName(query);
    if r.None? {
      return None;
    }
    var (name, end) := r.value;
    if end + 4 > |query| {
      return None;
    }
    return Some(Question(name, ReadU16(query, end), ReadU16(query, end + 2), end + 4));
  }

  method PushLower(before: Bytes, piece: Bytes) returns (name: Bytes)
    ensures name == before + LowerAll(piece)
  {
    name := before;
    for i := 0 to |piece|
      invariant name == before + LowerAll(piece[..i])
    {
      LowerAllStep(piece, i);
      name := name + CharOf(Lower(piece[i]));
    }
    assert piece[..|piece|] == piece;
  }

  // ----- writing names -----

  /** The pieces between the dots. */
  function Split(text: Bytes): (r: seq<Bytes>)
    ensures r != []
  {
    if text == [] then [[]]
    else
      var rest := Split(text[1..]);
      if text[0] == DOT then [[]] + rest else [[text[0]] + rest[0]] + rest[1..]
  }

  function Cut(piece: Bytes): Bytes {
    if |piece| > MAX_LABEL then piece[..MAX_LABEL] else piece
  }

  function EncodeLabels(labels: seq<Bytes>): Bytes {
    if labels == [] then [0]
    else (if labels[0] == [] then [] else [|Cut(labels[0])| as Byte] + Cut(labels[0])) + EncodeLabels(labels[1..])
  }

  function Encoded(name: Bytes): Bytes {
    EncodeLabels(Split(name))
  }

  /** The bytes of one label; an empty one is passed over. */
  function LabelBytes(piece: Bytes): Bytes {
    if piece == [] then [] else [|Cut(piece)| as Byte] + Cut(piece)
  }

  lemma NextEncoded(out: Bytes, labels: seq<Bytes>, i: nat)
    requires i < |labels|
    ensures out + EncodeLabels(labels[i..]) == out + LabelBytes(labels[i]) + EncodeLabels(labels[i + 1..])
  {
    assert labels[i..][1..] == labels[i + 1..] && labels[i..][0] == labels[i];
    assert EncodeLabels(labels[i..]) == LabelBytes(labels[i]) + EncodeLabels(labels[i + 1..]);
  }

  method EncodeLabel(piece: Bytes) returns (out: Bytes)
    requires piece != []
    ensures out == LabelBytes(piece)
  {
    var take := if |piece| < MAX_LABEL then |piece| else MAX_LABEL;
    out := [take as Byte] + piece[..take];
    assert piece[..take] == Cut(piece);
  }

  method EncodeName(name: Bytes) returns (out: Bytes)
    ensures out == Encoded(name)
  {
    var labels := Split(name);
    out := [];
    assert labels[0..] == labels && [] + EncodeLabels(labels) == EncodeLabels(labels);
    for i := 0 to |labels|
      invariant out + EncodeLabels(labels[i..]) == EncodeLabels(labels)
    {
      NextEncoded(out, labels, i);
      if labels[i] == [] {
        assert out + [] == out;
        continue;
      }
      var here := EncodeLabel(labels[i]);
      out := out + here;
    }
    assert labels[|labels|..] == [];
    out := out + [0];
  }

  /** What of the labels goes over the wire. */
  function Sendable(labels: seq<Bytes>): seq<Bytes> {
    if labels == [] then []
    else (if labels[0] == [] then [] else [Cut(labels[0])]) + Sendable(labels[1..])
  }

  predicate At(b: Bytes, pos: nat, x: Bytes) {
    pos + |x| <= |b| && b[pos..pos + |x|] == x
  }

  lemma AtBoth(b: Bytes, pos: nat, x: Bytes, y: Bytes)
    requires At(b, pos, x + y)
    ensures At(b, pos, x) && At(b, pos + |x|, y)
  {
    var xy := x + y;
    SliceOfSlice(b, pos, pos + |xy|, 0, |x|);
    SliceOfSlice(b, pos, pos + |xy|, |x|, |xy|);
    assert xy[0..|x|] == x && xy[|x|..|xy|] == y;
  }

  lemma SliceOfSlice(b: Bytes, lo: nat, hi: nat, i: nat, j: nat)
    requires lo <= hi <= |b| && i <= j <= hi - lo
    ensures b[lo..hi][i..j] == b[lo + i..lo + j]
  {
    assert forall k | 0 <= k < j - i :: b[lo..hi][i..j][k] == b[lo..hi][i + k] == b[lo + i..lo + j][k];
  }

  lemma OneLabel(b: Bytes, pos: nat, piece: Bytes)
    requires 0 < |piece| <= MAX_LABEL && At(b, pos, [|piece| as Byte] + piece)
    ensures ReadLabels(b, pos) ==
      match ReadLabels(b, pos + 1 + |piece|)
      case None => None
      case Some((more, end)) => Some(([piece] + more, end))
  {
    AtBoth(b, pos, [|piece| as Byte], piece);
    assert b[pos] == b[pos..pos + 1][0];
  }

  lemma RootReadBack(b: Bytes, pos: nat)
    requires At(b, pos, [0])
    ensures ReadLabels(b, pos) == Some(([], pos + 1))
  {
    assert b[pos] == b[pos..pos + 1][0];
  }

  ghost predicate ReadBack(b: Bytes, pos: nat, labels: seq<Bytes>) {
    ReadLabels(b, pos) == Some((Sendable(labels), pos + |EncodeLabels(labels)|))
  }

  lemma LabelThenRest(b: Bytes, pos: nat, piece: Bytes, rest: Bytes)
    requires 0 < |piece| <= MAX_LABEL && At(b, pos, [|piece| as Byte] + piece + rest)
    ensures At(b, pos + 1 + |piece|, rest)
    ensures ReadLabels(b, pos) ==
      match ReadLabels(b, pos + 1 + |piece|)
      case None => None
      case Some((more, end)) => Some(([piece] + more, end))
  {
    AtBoth(b, pos, [|piece| as Byte] + piece, rest);
    OneLabel(b, pos, piece);
  }

  /** The first label is read back if the rest, which stands behind it, is. */
  lemma FirstReadBack(b: Bytes, pos: nat, labels: seq<Bytes>, piece: Bytes, rest: seq<Bytes>)
    requires labels != [] && labels[0] != [] && piece == Cut(labels[0]) && rest == labels[1..]
    requires At(b, pos, EncodeLabels(labels))
    ensures At(b, pos + 1 + |piece|, EncodeLabels(rest))
    ensures ReadBack(b, pos + 1 + |piece|, rest) ==> ReadBack(b, pos, labels)
  {
    EncodeFirst(labels);
    LabelThenRest(b, pos, piece, EncodeLabels(rest));
  }

  lemma {:induction false} AllReadBack(b: Bytes, pos: nat, labels: seq<Bytes>)
    requires At(b, pos, EncodeLabels(labels))
    ensures ReadBack(b, pos, labels)
    decreases |labels|
  {
    if labels == [] {
      RootReadBack(b, pos);
    } else if labels[0] == [] {
      EncodeFirst(labels);
      AllReadBack(b, pos, labels[1..]);
    } else {
      FirstReadBack(b, pos, labels, Cut(labels[0]), labels[1..]);
      AllReadBack(b, pos + 1 + |Cut(labels[0])|, labels[1..]);
    }
  }

  /** Whatever name was encoded, its labels, cut to 63 bytes each, are read back. */
  lemma LabelsAreReadBack(b: Bytes, pos: nat, labels: seq<Bytes>)
    requires At(b, pos, EncodeLabels(labels))
    ensures ReadLabels(b, pos) == Some((Sendable(labels), pos + |EncodeLabels(labels)|))
  {
    AllReadBack(b, pos, labels);
  }

  lemma EncodeFirst(labels: seq<Bytes>)
    requires labels != []
    ensures labels[0] == [] ==>
      EncodeLabels(labels) == EncodeLabels(labels[1..]) && Sendable(labels) == Sendable(labels[1..])
    ensures labels[0] != [] ==>
      && EncodeLabels(labels) == [|Cut(labels[0])| as Byte] + Cut(labels[0]) + EncodeLabels(labels[1..])
      && Sendable(labels) == [Cut(labels[0])] + Sendable(labels[1..])
  {
    assert [] + EncodeLabels(labels[1..]) == EncodeLabels(labels[1..]) && [] + Sendable(labels[1..]) == Sendable(labels[1..]);
  }

  predicate Ascii(text: Bytes) {
    forall i | 0 <= i < |text| :: text[i] < 128
  }

  predicate WithinBounds(labels: seq<Bytes>) {
    forall i | 0 <= i < |labels| :: 0 < |labels[i]| <= MAX_LABEL
  }

  /** ASCII labels of 1 to 63 bytes, 253 bytes in all. */
  predicate ValidName(name: Bytes) {
    |name| <= MAX_NAME && Ascii(name) && WithinBounds(Split(name))
  }

  function LowerText(name: Bytes): (r: Bytes)
    ensures |r| == |name| && forall i | 0 <= i < |name| :: r[i] == Lower(name[i])
  {
    seq(|name|, i requires 0 <= i < |name| => Lower(name[i]))
  }

  lemma {:induction false} LowerAllAscii(piece: Bytes)
    requires Ascii(piece)
    ensures LowerAll(piece) == LowerText(piece)
  {
    if piece != [] {
      var front, last := piece[..|piece| - 1], piece[|piece| - 1];
      LowerAllAscii(front);
      assert CharOf(Lower(last)) == [Lower(last)];
      assert LowerText(piece) == LowerText(front) + [Lower(last)];
    }
  }

  lemma {:induction false} SplitAscii(name: Bytes)
    requires Ascii(name)
    ensures forall l <- Split(name) :: Ascii(l)
  {
    if name != [] {
      SplitAscii(name[1..]);
      assert Ascii(Split(name[1..])[0]);
    }
  }

  lemma {:induction false} SplitJoins(name: Bytes)
    requires Ascii(name)
    ensures TextOf(Split(name)) == LowerText(name)
  {
    if name == [] {
      assert TextOf([[]]) == [];
    } else {
      var rest := Split(name[1..]);
      SplitJoins(name[1..]);
      assert LowerText(name) == [Lower(name[0])] + LowerText(name[1..]);
      if name[0] == DOT {
        assert ([[]] + rest)[1..] == rest;
        assert LowerAll([]) == [];
      } else {
        SplitAscii(name[1..]);
        assert rest[0] in rest;
        FirstPiece(name[0], rest);
      }
    }
  }

  lemma FirstPiece(b: Byte, rest: seq<Bytes>)
    requires rest != [] && b < 128 && Ascii(rest[0])
    ensures TextOf([[b] + rest[0]] + rest[1..]) == [Lower(b)] + TextOf(rest)
  {
    TextBegins([b] + rest[0], rest[1..]);
    TextBegins(rest[0], rest[1..]);
    assert [rest[0]] + rest[1..] == rest;
    LowerFirst(b, rest[0]);
    Regroup([Lower(b)], LowerAll(rest[0]), if rest[1..] == [] then [] else [DOT] + TextOf(rest[1..]));
  }

  lemma Regroup(a: Bytes, b: Bytes, c: Bytes)
    ensures a + b + c == a + (b + c)
  {
  }

  lemma LowerFirst(b: Byte, piece: Bytes)
    requires b < 128 && Ascii(piece)
    ensures LowerAll([b] + piece) == [Lower(b)] + LowerAll(piece)
  {
    LowerAllAscii([b] + piece);
    LowerAllAscii(piece);
    LowerTextFirst(b, piece);
  }

  lemma LowerTextFirst(b: Byte, piece: Bytes)
    ensures LowerText([b] + piece) == [Lower(b)] + LowerText(piece)
  {
  }

  lemma TextBegins(first: Bytes, rest: seq<Bytes>)
    ensures TextOf([first] + rest) == LowerAll(first) + (if rest == [] then [] else [DOT] + TextOf(rest))
  {
    assert ([first] + rest)[1..] == rest;
  }

  lemma {:induction false} AllSendable(labels: seq<Bytes>)
    requires WithinBounds(labels)
    ensures Sendable(labels) == labels
  {
    if labels != [] {
      AllSendable(labels[1..]);
    }
  }

  lemma NumbersRead(before: Bytes, qtype: nat, qclass: nat, after: Bytes)
    requires qtype < 0x1_0000 && qclass < 0x1_0000
    ensures
      var b := before + (U16(qtype) + U16(qclass) + after);
      ReadU16(b, |before|) == qtype && ReadU16(b, |before| + 2) == qclass
  {
  }

  /** A question that was written with `EncodeName` is read as the name in lower case. */
  lemma QuestionRoundTrip(header: Bytes, name: Bytes, qtype: nat, qclass: nat, after: Bytes)
    requires |header| == 12 && ValidName(name) && qtype < 0x1_0000 && qclass < 0x1_0000
    ensures QuestionOf(header + Encoded(name) + (U16(qtype) + U16(qclass) + after))
         == Some(Question(LowerText(name), qtype, qclass, 12 + |Encoded(name)| + 4))
  {
    var tail := U16(qtype) + U16(qclass) + after;
    AtMiddle(header, Encoded(name), tail);
    NameIsReadBack(header + Encoded(name) + tail, name);
    NumbersRead(header + Encoded(name), qtype, qclass, after);
  }

  lemma AtMiddle(a: Bytes, b: Bytes, c: Bytes)
    ensures At(a + b + c, |a|, b)
  {
  }

  lemma NameIsReadBack(b: Bytes, name: Bytes)
    requires ValidName(name) && At(b, 12, Encoded(name))
    ensures NameOf(b) == Some((LowerText(name), 12 + |Encoded(name)|))
  {
    LabelsAreReadBack(b, 12, Split(name));
    AllSendable(Split(name));
    SplitJoins(name);
  }
}
