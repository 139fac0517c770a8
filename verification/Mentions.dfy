/**
  Mentions in chat messages (apps/peercove-ui/src/mentions.ts). A text is a sequence of UTF-16 code
  units, as JavaScript indexes it.
*/
module Mentions {
  import opened Options

  type Unit = n: nat | n < 0x1_0000
  type Text = seq<Unit>

  const AT: Unit := 64
  const ALL: Text := [65, 108, 108]

  /** `\s` of a regular expression, and what `trim` takes away. */
  predicate IsSpace(u: Unit) {
    || 9 <= u <= 13 || u == 32 || u == 0xA0 || u == 0x1680 || 0x2000 <= u <= 0x200A
    || u == 0x2028 || u == 0x2029 || u == 0x202F || u == 0x205F || u == 0x3000 || u == 0xFEFF
  }

  /** `\w` of a regular expression. */
  predicate IsWord(u: Unit) {
    48 <= u <= 57 || 65 <= u <= 90 || u == 95 || 97 <= u <= 122
  }

  function Trim(s: Text): Text {
    if s != [] && IsSpace(s[0]) then Trim(s[1..])
    else if s != [] && IsSpace(s[|s| - 1]) then Trim(s[..|s| - 1])
    else s
  }

  // ----- scanning -----

  predicate Occurs(text: Text, token: Text, at: nat) {
    at + |token| <= |text| && text[at..at + |token|] == token
  }

  function IndexOf(text: Text, token: Text, from: nat): (r: Option<nat>)
    ensures r.Some? ==> from <= r.value && Occurs(text, token, r.value) && forall i | from <= i < r.value :: !Occurs(text, token, i)
    ensures r.None? ==> forall i: nat | from <= i :: !Occurs(text, token, i)
    decreases |text| - from
  {
    if from + |token| > |text| then None
    else if text[from..from + |token|] == token then Some(from)
    else IndexOf(text, token, from + 1)
  }

  function Token(name: Text): Text {
    [AT] + name
  }

  /** Neither end is in the middle of a word. */
  predicate Whole(text: Text, at: nat, end: nat)
    requires at <= |text|
  {
    (at == 0 || IsSpace(text[at - 1])) && (end >= |text| || !IsWord(text[end]))
  }

  /** The mentions of a name that a scan from `from` finds; it goes on behind each occurrence. */
  function Hits(text: Text, name: Text, from: nat): (r: seq<nat>)
    decreases |text| - from
  {
    match IndexOf(text, Token(name), from)
    case None => []
    case Some(i) =>
      var end := i + |name| + 1;
      (if Whole(text, i, end) then [i] else []) + Hits(text, name, end)
  }

  /** The occurrence at `i` counts if it is whole, and the scan goes on behind it. */
  lemma HitsStep(text: Text, name: Text, from: nat, i: nat)
    requires IndexOf(text, Token(name), from) == Some(i)
    ensures i < |text|
    ensures Hits(text, name, from) == (if Whole(text, i, i + |name| + 1) then [i] else []) + Hits(text, name, i + |name| + 1)
  {
  }

  predicate Written(text: Text, name: Text, at: nat) {
    Occurs(text, Token(name), at) && Whole(text, at, at + |name| + 1)
  }

  predicate AllWritten(text: Text, name: Text, places: seq<nat>) {
    forall k | 0 <= k < |places| :: Written(text, name, places[k])
  }

  lemma MoreWritten(text: Text, name: Text, first: seq<nat>, rest: seq<nat>)
    requires AllWritten(text, name, first) && AllWritten(text, name, rest)
    ensures AllWritten(text, name, first + rest)
  {
  }

  lemma FirstIsWritten(text: Text, name: Text, from: nat, i: nat)
    requires IndexOf(text, Token(name), from) == Some(i)
    ensures AllWritten(text, name, if Whole(text, i, i + |name| + 1) then [i] else [])
  {
  }

  lemma {:induction false} HitsAreWritten(text: Text, name: Text, from: nat)
    ensures AllWritten(text, name, Hits(text, name, from))
    decreases |text| - from
  {
    var index := IndexOf(text, Token(name), from);
    if index.Some? {
      var i := index.value;
      HitsStep(text, name, from, i);
      FirstIsWritten(text, name, from, i);
      HitsAreWritten(text, name, i + |name| + 1);
      MoreWritten(text, name, if Whole(text, i, i + |name| + 1) then [i] else [], Hits(text, name, i + |name| + 1));
    }
  }

  method HasMentionToken(text: Text, name: Text) returns (found: bool)
    ensures found == (Hits(text, name, 0) != [])
  {
    var token := Token(name);
    var from: nat := 0;
    while true
      invariant Hits(text, name, 0) == Hits(text, name, from)
      decreases |text| - from
    {
      var index := IndexOf(text, token, from);
      if index.None? {
        return false;
      }
      var at := index.value;
      if Whole(text, at, at + |token|) {
        return true;
      }
      from := at + |token|;
    }
  }

  predicate Addressed(text: Text, myName: Text) {
    Hits(text, ALL, 0) != [] || (Trim(myName) != [] && Hits(text, Trim(myName), 0) != [])
  }

  method IsMentioned(text: Text, myName: Text) returns (mentioned: bool)
    ensures mentioned == Addressed(text, myName)
  {
    var all := HasMentionToken(text, ALL);
    if all {
      return true;
    }
    var trimmed := Trim(myName);
    if trimmed == [] {
      return false;
    }
    mentioned := HasMentionToken(text, trimmed);
  }

  /** Behind a unit a mention begins exactly if that is white space, and before one it ends exactly if that is no word character. */
  lemma BoundariesMatter(name: Text, u: Unit)
    ensures Written([u] + Token(name), name, 1) <==> IsSpace(u)
    ensures Written(Token(name) + [u], name, 0) <==> !IsWord(u)
  {
    var before, behind := [u] + Token(name), Token(name) + [u];
    assert before[1..1 + |Token(name)|] == Token(name);
    assert behind[0..|Token(name)|] == Token(name);
  }

  // ----- the scan against the text -----

  lemma UnitAt(text: Text, token: Text, at: nat, k: nat)
    requires Occurs(text, token, at) && k < |token|
    ensures text[at + k] == token[k]
  {
    assert text[at..at + |token|][k] == text[at + k];
  }

  predicate Fit(x: Text, y: Text) {
    x <= y || y <= x
  }

  /** A mention of `b` could begin at unit `k` of a mention of `a`: at an at sign behind a space, and the units agree. */
  predicate Crosses(a: Text, b: Text, k: nat) {
    0 < k <= |a| && Token(a)[k] == AT && IsSpace(Token(a)[k - 1]) && Fit(Token(a)[k..], Token(b))
  }

  /** A mention of the name could begin within another one of the same name. */
  predicate CanBeMissed(name: Text) {
    exists k: nat | k <= |name| :: Crosses(name, name, k)
  }

  lemma TailAt(text: Text, token: Text, i: nat, k: nat)
    requires Occurs(text, token, i) && k <= |token|
    ensures text[i + k..i + |token|] == token[k..]
  {
    assert text[i..i + |token|][k..] == text[i + k..i + |token|];
  }

  lemma SlicesFit(text: Text, at: nat, m: nat, n: nat)
    requires at <= m <= |text| && at <= n <= |text|
    ensures Fit(text[at..m], text[at..n])
  {
    assert m <= n ==> text[at..n][..m - at] == text[at..m];
    assert n <= m ==> text[at..m][..n - at] == text[at..n];
  }

  /** One mention begins within another only where the names cross. */
  lemma WithinIsCrossing(text: Text, a: Text, b: Text, i: nat, at: nat)
    requires Occurs(text, Token(a), i) && Written(text, b, at) && i < at <= i + |a|
    ensures Crosses(a, b, at - i)
  {
    var k := at - i;
    UnitAt(text, Token(b), at, 0);
    UnitAt(text, Token(a), i, k);
    UnitAt(text, Token(a), i, k - 1);
    TailAt(text, Token(a), i, k);
    SlicesFit(text, at, i + |Token(a)|, at + |Token(b)|);
  }

  lemma FirstIsNoLater(text: Text, token: Text, from: nat, at: nat)
    requires from <= at && Occurs(text, token, at)
    ensures IndexOf(text, token, from).Some? && IndexOf(text, token, from).value <= at
  {
  }

  lemma InHits(text: Text, name: Text, from: nat, i: nat, at: nat)
    requires IndexOf(text, Token(name), from) == Some(i)
    requires (at == i && Whole(text, i, i + |name| + 1)) || at in Hits(text, name, i + |name| + 1)
    ensures at in Hits(text, name, from)
  {
    HitsStep(text, name, from, i);
  }

  lemma NoneWithin(text: Text, name: Text, i: nat, at: nat)
    requires !CanBeMissed(name) && Occurs(text, Token(name), i) && Written(text, name, at) && i < at
    ensures at > i + |name|
  {
    if at <= i + |name| {
      WithinIsCrossing(text, name, name, i, at);
    }
  }

  /** A name that cannot cross itself is found wherever it is written. */
  lemma {:induction false} ScanFindsAll(text: Text, name: Text, from: nat, at: nat)
    requires !CanBeMissed(name) && from <= at && Written(text, name, at)
    ensures at in Hits(text, name, from)
    decreases |text| - from
  {
    FirstIsNoLater(text, Token(name), from, at);
    var i := IndexOf(text, Token(name), from).value;
    if i < at {
      NoneWithin(text, name, i, at);
      ScanFindsAll(text, name, i + |name| + 1, at);
    }
    InHits(text, name, from, i, at);
  }

  lemma HitIsWritten(text: Text, name: Text, at: nat)
    requires at in Hits(text, name, 0)
    ensures Written(text, name, at)
  {
    HitsAreWritten(text, name, 0);
    var k :| 0 <= k < |Hits(text, name, 0)| && Hits(text, name, 0)[k] == at;
  }

  lemma FoundIffWritten(text: Text, name: Text, at: nat)
    requires !CanBeMissed(name)
    ensures at in Hits(text, name, 0) <==> Written(text, name, at)
  {
    if at in Hits(text, name, 0) {
      HitIsWritten(text, name, at);
    } else if Written(text, name, at) {
      ScanFindsAll(text, name, 0, at);
    }
  }

  /** A text in which the scan misses the only mention, for any name that crosses itself: `x@a @a @a` for `a @a`. */
  function Overlapping(name: Text, k: nat): Text
    requires k <= |name|
  {
    [120] + Token(name)[..k] + Token(name)
  }

  lemma OverlapIsMissed(name: Text, k: nat)
    requires Crosses(name, name, k)
    ensures Written(Overlapping(name, k), name, 1 + k) && Hits(Overlapping(name, k), name, 0) == []
  {
    var text, token := Overlapping(name, k), Token(name);
    assert text[1 + k..1 + k + |token|] == token;
    assert text[k] == token[k - 1];
    OccursTwice(name, k);
    BeginsWithAt(text, name);
    OnlyOccurrence(text, name, 1);
  }

  lemma BeginsWithAt(text: Text, name: Text)
    ensures Occurs(text, Token(name), 0) ==> text[0] == AT
  {
    if Occurs(text, Token(name), 0) {
      UnitAt(text, Token(name), 0, 0);
    }
  }

  lemma OccursTwice(name: Text, k: nat)
    requires Crosses(name, name, k)
    ensures Occurs(Overlapping(name, k), Token(name), 1)
  {
    var token := Token(name);
    var front := token[..|token| - k];
    assert token[k..] == front;
    assert Overlapping(name, k)[1..1 + |token|] == token[..k] + front;
    assert token[..k] + token[k..] == token;
  }

  /** The scan finds everything that is written, in all texts, exactly if the name cannot cross itself. */
  lemma NothingIsMissedIff(name: Text)
    ensures (forall text: Text, at: nat | Written(text, name, at) :: at in Hits(text, name, 0)) <==> !CanBeMissed(name)
  {
    if CanBeMissed(name) {
      var k: nat :| k <= |name| && Crosses(name, name, k);
      OverlapIsMissed(name, k);
    } else {
      forall text: Text, at: nat | Written(text, name, at)
        ensures at in Hits(text, name, 0)
      {
        FoundIffWritten(text, name, at);
      }
    }
  }

  lemma OnlyOccurrence(text: Text, name: Text, first: nat)
    requires Occurs(text, Token(name), first) && forall i: nat | i < first :: !Occurs(text, Token(name), i)
    requires first + 2 * |name| + 2 > |text|
    ensures Hits(text, name, 0) == if Whole(text, first, first + |name| + 1) then [first] else []
  {
    HitsStep(text, name, 0, first);
  }

  // ----- splitting a message -----

  datatype Candidate = Candidate(name: Text, self: bool)

  datatype Range = Range(start: nat, end: nat, self: bool)

  datatype Segment = Plain(value: Text) | Mention(value: Text, self: bool)

  predicate Named(cands: seq<Candidate>, name: Text) {
    exists c <- cands :: c.name == name
  }

  predicate Wanted(myName: Text, members: seq<Text>, name: Text) {
    name == ALL || (name != [] && (name == Trim(myName) || exists m <- members :: name == Trim(m)))
  }

  /** `All` and one's own name stand for oneself, every other name for somebody else. */
  ghost predicate Candidates(cands: seq<Candidate>, myName: Text, members: seq<Text>) {
    && (forall c <- cands :: c.self <==> c.name == ALL || (Trim(myName) != [] && c.name == Trim(myName)))
    && (forall name :: Named(cands, name) <==> Wanted(myName, members, name))
  }

  lemma NamedMore(cands: seq<Candidate>, c: Candidate)
    ensures forall name :: Named(cands + [c], name) <==> Named(cands, name) || name == c.name
  {
    assert forall x :: x in cands + [c] <==> x in cands || x == c;
    assert c in cands + [c];
  }

  lemma WantedMore(myName: Text, members: seq<Text>, m: Text)
    ensures forall name :: Wanted(myName, members + [m], name) <==> Wanted(myName, members, name) || (name != [] && name == Trim(m))
  {
    assert forall x :: x in members + [m] <==> x in members || x == m;
    assert m in members + [m];
  }

  method CollectCandidates(myName: Text, members: seq<Text>) returns (cands: seq<Candidate>)
    ensures Candidates(cands, myName, members)
  {
    cands := OwnCandidates(myName);
    assert members[..0] == [];
    for i := 0 to |members|
      invariant Candidates(cands, myName, members[..i])
    {
      assert members[..i + 1] == members[..i] + [members[i]];
      WantedMore(myName, members[..i], members[i]);
      var trimmed := Trim(members[i]);
      if trimmed != [] && !Named(cands, trimmed) {
        NamedMore(cands, Candidate(trimmed, false));
        assert !Wanted(myName, members[..i], trimmed);
        cands := cands + [Candidate(trimmed, false)];
      }
    }
    assert members[..|members|] == members;
  }

  method OwnCandidates(myName: Text) returns (cands: seq<Candidate>)
    ensures Candidates(cands, myName, [])
  {
    cands := [Candidate(ALL, true)];
    assert Candidate(ALL, true) in cands;
    var mine := Trim(myName);
    if mine != [] && mine != ALL {
      NamedMore(cands, Candidate(mine, true));
      cands := cands + [Candidate(mine, true)];
    }
  }

  predicate Descending(cands: seq<Candidate>) {
    forall i, j | 0 <= i < j < |cands| :: |cands[i].name| >= |cands[j].name|
  }

  function InsertByLength(c: Candidate, cands: seq<Candidate>): (r: seq<Candidate>)
    ensures forall x :: x in r <==> x == c || x in cands
  {
    if cands == [] || |c.name| > |cands[0].name| then [c] + cands else [cands[0]] + InsertByLength(c, cands[1..])
  }

  lemma {:induction false} InsertIsDescending(c: Candidate, cands: seq<Candidate>)
    requires Descending(cands)
    ensures Descending(InsertByLength(c, cands))
  {
    if cands != [] && |c.name| <= |cands[0].name| {
      InsertIsDescending(c, cands[1..]);
      var rest := InsertByLength(c, cands[1..]);
      forall i | 0 <= i < |rest|
        ensures |rest[i].name| <= |cands[0].name|
      {
        assert rest[i] in rest;
        if rest[i] != c {
          var k :| 0 <= k < |cands| - 1 && cands[1..][k] == rest[i];
          assert cands[k + 1] == rest[i];
        }
      }
    }
  }

  /** Longest first. */
  function SortByLength(cands: seq<Candidate>): (r: seq<Candidate>)
    ensures Descending(r) && forall x :: x in r <==> x in cands
  {
    if cands == [] then []
    else
      var last := cands[|cands| - 1];
      assert cands == cands[..|cands| - 1] + [last];
      var rest := SortByLength(cands[..|cands| - 1]);
      InsertIsDescending(last, rest);
      InsertByLength(last, rest)
  }

  predicate Overlaps(r: Range, start: nat, end: nat) {
    start < r.end && end > r.start
  }

  predicate Apart(ranges: seq<Range>) {
    forall i, j | 0 <= i < j < |ranges| :: !Overlaps(ranges[i], ranges[j].start, ranges[j].end)
  }

  /** The range is a mention of that candidate in the text. */
  ghost predicate IsOf(text: Text, r: Range, c: Candidate) {
    r.start in Hits(text, c.name, 0) && r.end == r.start + |c.name| + 1 && r.self == c.self
  }

  ghost predicate Backed(text: Text, cands: seq<Candidate>, r: Range) {
    exists c <- cands :: IsOf(text, r, c)
  }

  /** Some range is in the way, or is the place itself, and it is no shorter. */
  ghost predicate Covered(ranges: seq<Range>, at: nat, length: nat) {
    exists r <- ranges :: Covers(r, at, length)
  }

  predicate Covers(r: Range, at: nat, length: nat) {
    Overlaps(r, at, at + length) && r.end - r.start >= length
  }

  lemma CoveredMore(had: seq<Range>, ranges: seq<Range>, at: nat, length: nat)
    requires had <= ranges && Covered(had, at, length)
    ensures Covered(ranges, at, length)
  {
    var r :| r in had && Covers(r, at, length);
    assert r in ranges;
  }

  predicate AllLonger(ranges: seq<Range>, length: nat) {
    forall i | 0 <= i < |ranges| :: ranges[i].end >= ranges[i].start + length
  }

  ghost predicate AddedOf(text: Text, c: Candidate, before: seq<Range>, ranges: seq<Range>) {
    before <= ranges && forall i {:trigger IsOf(text, ranges[i], c)} | |before| <= i < |ranges| :: IsOf(text, ranges[i], c)
  }

  ghost predicate AllCovered(ranges: seq<Range>, places: seq<nat>, length: nat) {
    forall i | 0 <= i < |places| :: Covered(ranges, places[i], length)
  }

  ghost predicate Served(text: Text, c: Candidate, ranges: seq<Range>) {
    AllCovered(ranges, Hits(text, c.name, 0), |c.name| + 1)
  }

  /** The scan has come to `from` and has dealt with the mentions `done`. */
  ghost predicate Progress(text: Text, name: Text, done: seq<nat>, from: nat) {
    Hits(text, name, 0) == done + Hits(text, name, from)
  }

  ghost predicate Collected(text: Text, c: Candidate, before: seq<Range>, ranges: seq<Range>, done: seq<nat>) {
    AddedOf(text, c, before, ranges) && Apart(ranges) && AllLonger(ranges, |c.name| + 1) && AllCovered(ranges, done, |c.name| + 1)
  }

  lemma ScanBegins(text: Text, name: Text)
    ensures Progress(text, name, [], 0)
  {
    assert [] + Hits(text, name, 0) == Hits(text, name, 0);
  }

  lemma ScanEnds(text: Text, name: Text, done: seq<nat>, from: nat)
    requires Progress(text, name, done, from) && IndexOf(text, Token(name), from) == None
    ensures done == Hits(text, name, 0)
  {
    assert done + [] == done;
  }

  lemma ScanGoesOn(text: Text, name: Text, done: seq<nat>, from: nat, at: nat, next: nat, dealt: seq<nat>)
    requires Progress(text, name, done, from) && IndexOf(text, Token(name), from) == Some(at)
    requires next == at + |name| + 1 && dealt == if Whole(text, at, next) then done + [at] else done
    ensures from < next && at < |text| && Progress(text, name, dealt, next)
    ensures Whole(text, at, next) ==> at in Hits(text, name, 0)
  {
    HitsStep(text, name, from, at);
    var rest := Hits(text, name, next);
    if Whole(text, at, next) {
      Appending(done, at, rest);
      assert (done + [at] + rest)[|done|] == at;
    } else {
      assert [] + rest == rest;
    }
  }

  lemma Appending(done: seq<nat>, at: nat, rest: seq<nat>)
    ensures done + ([at] + rest) == done + [at] + rest
  {
  }

  lemma ScanIsComplete(text: Text, c: Candidate, before: seq<Range>, ranges: seq<Range>, done: seq<nat>, from: nat)
    requires Progress(text, c.name, done, from) && IndexOf(text, Token(c.name), from) == None
    requires Collected(text, c, before, ranges, done)
    ensures AddedOf(text, c, before, ranges) && Apart(ranges) && AllLonger(ranges, |c.name| + 1) && Served(text, c, ranges)
  {
    ScanEnds(text, c.name, done, from);
  }

  method AddRanges(text: Text, c: Candidate, before: seq<Range>) returns (ranges: seq<Range>)
    requires Apart(before) && AllLonger(before, |c.name| + 1)
    ensures AddedOf(text, c, before, ranges) && Apart(ranges) && AllLonger(ranges, |c.name| + 1)
    ensures Served(text, c, ranges)
  {
    ranges := before;
    var from: nat := 0;
    ghost var done: seq<nat> := [];
    ScanBegins(text, c.name);
    var index := IndexOf(text, Token(c.name), from);
    while index.Some?
      invariant index == IndexOf(text, Token(c.name), from)
      invariant Progress(text, c.name, done, from) && Collected(text, c, before, ranges, done)
      decreases |text| - from
    {
      from, ranges, done := ScanOn(text, c, from, before, ranges, done, index.value);
      index := IndexOf(text, Token(c.name), from);
    }
    ScanIsComplete(text, c, before, ranges, done, from);
  }

  method ScanOn(text: Text, c: Candidate, ghost from: nat, ghost before: seq<Range>, had: seq<Range>, ghost done: seq<nat>, at: nat)
    returns (next: nat, ranges: seq<Range>, ghost dealt: seq<nat>)
    requires IndexOf(text, Token(c.name), from) == Some(at)
    requires Progress(text, c.name, done, from) && Collected(text, c, before, had, done)
    ensures from < next && at < |text|
    ensures Progress(text, c.name, dealt, next) && Collected(text, c, before, ranges, dealt)
  {
    next := at + |c.name| + 1;
    dealt := if Whole(text, at, next) then done + [at] else done;
    ScanGoesOn(text, c.name, done, from, at, next, dealt);
    ranges := LookAt(text, c, before, had, done, at, next, dealt);
  }

  /** An occurrence in the middle of a word is passed over. */
  method LookAt(
    text: Text, c: Candidate, ghost before: seq<Range>, had: seq<Range>, ghost done: seq<nat>, at: nat, next: nat, ghost dealt: seq<nat>)
    returns (ranges: seq<Range>)
    requires at < |text| && next == at + |c.name| + 1 && (Whole(text, at, next) ==> at in Hits(text, c.name, 0))
    requires dealt == if Whole(text, at, next) then done + [at] else done
    requires Collected(text, c, before, had, done)
    ensures Collected(text, c, before, ranges, dealt)
  {
    if Whole(text, at, next) {
      ranges := AddHit(text, c, before, had, done, at);
    } else {
      ranges := had;
    }
  }

  method AddHit(text: Text, c: Candidate, ghost before: seq<Range>, had: seq<Range>, ghost done: seq<nat>, at: nat)
    returns (ranges: seq<Range>)
    requires Collected(text, c, before, had, done) && at in Hits(text, c.name, 0)
    ensures Collected(text, c, before, ranges, done + [at])
  {
    ranges := AddOne(had, at, |c.name| + 1, c.self);
    AddedOne(text, c, before, had, ranges, at);
    CoveredOne(had, ranges, done, at, |c.name| + 1);
  }

  lemma AddedOne(text: Text, c: Candidate, before: seq<Range>, had: seq<Range>, ranges: seq<Range>, at: nat)
    requires AddedOf(text, c, before, had) && at in Hits(text, c.name, 0)
    requires ranges == had || ranges == had + [Range(at, at + |c.name| + 1, c.self)]
    ensures AddedOf(text, c, before, ranges)
  {
    assert IsOf(text, Range(at, at + |c.name| + 1, c.self), c);
  }

  lemma CoveredOne(had: seq<Range>, ranges: seq<Range>, done: seq<nat>, at: nat, length: nat)
    requires had <= ranges && AllCovered(had, done, length) && Covered(ranges, at, length)
    ensures AllCovered(ranges, done + [at], length)
  {
    forall i | 0 <= i < |done|
      ensures Covered(ranges, done[i], length)
    {
      CoveredMore(had, ranges, done[i], length);
    }
  }

  /** What overlaps a range found earlier is left out. */
  method AddOne(before: seq<Range>, at: nat, length: nat, self: bool) returns (ranges: seq<Range>)
    requires Apart(before) && length > 0 && AllLonger(before, length)
    ensures Apart(ranges) && AllLonger(ranges, length)
    ensures ranges == before || ranges == before + [Range(at, at + length, self)]
    ensures Covered(ranges, at, length)
  {
    if exists x <- before :: Overlaps(x, at, at + length) {
      assert forall i | 0 <= i < |before| && Overlaps(before[i], at, at + length) :: Covers(before[i], at, length);
      return before;
    }
    ranges := before + [Range(at, at + length, self)];
    assert forall i | 0 <= i < |before| :: before[i] in before;
    assert ranges[|before|] in ranges && Covers(ranges[|before|], at, length);
  }

  ghost predicate AllBacked(text: Text, cands: seq<Candidate>, ranges: seq<Range>) {
    forall i {:trigger Backed(text, cands, ranges[i])} | 0 <= i < |ranges| :: Backed(text, cands, ranges[i])
  }

  /**
    The ranges of a message: apart from each other, each a mention of some candidate, and wherever a
    candidate is mentioned there is one of at least that length.
  */
  ghost predicate RangesOf(text: Text, cands: seq<Candidate>, ranges: seq<Range>) {
    Apart(ranges) && AllLonger(ranges, 1) && AllBacked(text, cands, ranges) && forall c <- cands :: Served(text, c, ranges)
  }

  lemma RangesOfMore(text: Text, cands: seq<Candidate>, c: Candidate, before: seq<Range>, ranges: seq<Range>)
    requires RangesOf(text, cands, before) && AddedOf(text, c, before, ranges) && Served(text, c, ranges)
    requires Apart(ranges) && AllLonger(ranges, |c.name| + 1)
    ensures RangesOf(text, cands + [c], ranges)
  {
    assert c in cands + [c];
    forall i | 0 <= i < |ranges|
      ensures Backed(text, cands + [c], ranges[i])
    {
      if i < |before| {
        assert Backed(text, cands, before[i]);
        var x :| x in cands && IsOf(text, before[i], x);
        assert x in cands + [c];
      } else {
        assert IsOf(text, ranges[i], c);
      }
    }
    forall x <- cands + [c]
      ensures Served(text, x, ranges)
    {
      if x in cands {
        StillServed(text, x, before, ranges);
      }
    }
  }

  lemma StillServed(text: Text, c: Candidate, before: seq<Range>, ranges: seq<Range>)
    requires Served(text, c, before) && before <= ranges
    ensures Served(text, c, ranges)
  {
    var hits := Hits(text, c.name, 0);
    forall i | 0 <= i < |hits|
      ensures Covered(ranges, hits[i], |c.name| + 1)
    {
      CoveredMore(before, ranges, hits[i], |c.name| + 1);
    }
  }

  method FindRanges(text: Text, cands: seq<Candidate>) returns (ranges: seq<Range>)
    requires Descending(cands)
    ensures RangesOf(text, cands, ranges)
  {
    ranges := [];
    for i := 0 to |cands|
      invariant RangesOf(text, cands[..i], ranges)
      invariant forall j | i <= j < |cands| :: AllLonger(ranges, |cands[j].name| + 1)
    {
      var before := ranges;
      ranges := AddRanges(text, cands[i], before);
      RangesOfMore(text, cands[..i], cands[i], before, ranges);
      assert cands[..i + 1] == cands[..i] + [cands[i]];
    }
    assert cands[..|cands|] == cands;
  }

  // ----- cutting the text up -----

  predicate Ordered(ranges: seq<Range>) {
    forall i, j | 0 <= i < j < |ranges| :: ranges[i].end <= ranges[j].start
  }

  function InsertByStart(x: Range, ranges: seq<Range>): (r: seq<Range>)
    ensures |r| == |ranges| + 1 && forall y :: y in r <==> y == x || y in ranges
  {
    if ranges == [] || x.start < ranges[0].start then [x] + ranges
    else [ranges[0]] + InsertByStart(x, ranges[1..])
  }

  lemma {:induction false} InsertIsOrdered(x: Range, ranges: seq<Range>)
    requires Ordered(ranges) && AllLonger(ranges, 1) && x.start < x.end
    requires forall i | 0 <= i < |ranges| :: !Overlaps(ranges[i], x.start, x.end)
    ensures Ordered(InsertByStart(x, ranges)) && AllLonger(InsertByStart(x, ranges), 1)
  {
    if ranges != [] {
      var first := ranges[0];
      assert !Overlaps(first, x.start, x.end);
      if x.start >= first.start {
        InsertIsOrdered(x, ranges[1..]);
        var rest := InsertByStart(x, ranges[1..]);
        forall i | 0 <= i < |rest|
          ensures rest[i].start >= first.end
        {
          assert rest[i] in rest;
          if rest[i] != x {
            var k :| 0 <= k < |ranges| - 1 && ranges[1..][k] == rest[i];
            assert ranges[k + 1] == rest[i];
          }
        }
      }
    }
  }

  function SortByStart(ranges: seq<Range>): (r: seq<Range>)
    requires Apart(ranges) && AllLonger(ranges, 1)
    ensures Ordered(r) && AllLonger(r, 1) && |r| == |ranges| && forall y :: y in r <==> y in ranges
  {
    if ranges == [] then []
    else
      var n := |ranges| - 1;
      assert ranges == ranges[..n] + [ranges[n]];
      var rest := SortByStart(ranges[..n]);
      assert forall i | 0 <= i < |rest| :: rest[i] in rest && rest[i] in ranges[..n];
      InsertIsOrdered(ranges[n], rest);
      InsertByStart(ranges[n], rest)
  }

  function Joined(parts: seq<Segment>): Text {
    if parts == [] then [] else Joined(parts[..|parts| - 1]) + parts[|parts| - 1].value
  }

  /** The mentions among the segments, in order. */
  function MentionsIn(parts: seq<Segment>): seq<Segment> {
    if parts == [] then []
    else
      var last := parts[|parts| - 1];
      MentionsIn(parts[..|parts| - 1]) + if last.Mention? then [last] else []
  }

  predicate InText(text: Text, ranges: seq<Range>) {
    forall i | 0 <= i < |ranges| :: ranges[i].start < ranges[i].end <= |text|
  }

  function SegmentsOf(text: Text, ranges: seq<Range>): (r: seq<Segment>)
    requires InText(text, ranges)
    ensures |r| == |ranges|
    ensures forall i | 0 <= i < |ranges| :: r[i] == Mention(text[ranges[i].start..ranges[i].end], ranges[i].self)
  {
    seq(|ranges|, i requires 0 <= i < |ranges| => Mention(text[ranges[i].start..ranges[i].end], ranges[i].self))
  }

  lemma OneMore(parts: seq<Segment>, s: Segment)
    ensures Joined(parts + [s]) == Joined(parts) + s.value
    ensures MentionsIn(parts + [s]) == MentionsIn(parts) + if s.Mention? then [s] else []
  {
    assert (parts + [s])[..|parts|] == parts;
  }

  method AddPart(parts: seq<Segment>, s: Segment) returns (more: seq<Segment>)
    ensures Joined(more) == Joined(parts) + s.value
    ensures MentionsIn(more) == MentionsIn(parts) + if s.Mention? then [s] else []
  {
    more := parts + [s];
    OneMore(parts, s);
  }

  /** What lies between the last mention and this one, and then this one. */
  method AddMention(text: Text, parts: seq<Segment>, cursor: nat, r: Range) returns (more: seq<Segment>)
    requires cursor <= r.start < r.end <= |text| && Joined(parts) == text[..cursor]
    ensures Joined(more) == text[..r.end]
    ensures MentionsIn(more) == MentionsIn(parts) + [Mention(text[r.start..r.end], r.self)]
  {
    more := parts;
    if r.start > cursor {
      more := AddPart(more, Plain(text[cursor..r.start]));
    }
    assert text[..cursor] + text[cursor..r.start] == text[..r.start];
    more := AddPart(more, Mention(text[r.start..r.end], r.self));
    assert text[..r.start] + text[r.start..r.end] == text[..r.end];
  }

  method CutUp(text: Text, ranges: seq<Range>) returns (parts: seq<Segment>)
    requires Ordered(ranges) && InText(text, ranges)
    ensures Joined(parts) == text && MentionsIn(parts) == SegmentsOf(text, ranges)
  {
    parts := [];
    var cursor: nat := 0;
    ghost var segments := SegmentsOf(text, ranges);
    for i := 0 to |ranges|
      invariant cursor == (if i == 0 then 0 else ranges[i - 1].end) && cursor <= |text|
      invariant Joined(parts) == text[..cursor] && MentionsIn(parts) == segments[..i]
    {
      assert segments[..i + 1] == segments[..i] + [segments[i]];
      parts := AddMention(text, parts, cursor, ranges[i]);
      cursor := ranges[i].end;
    }
    assert segments[..|ranges|] == segments;
    parts := AddRest(text, parts, cursor);
  }

  method AddRest(text: Text, parts: seq<Segment>, cursor: nat) returns (more: seq<Segment>)
    requires cursor <= |text| && Joined(parts) == text[..cursor]
    ensures Joined(more) == text && MentionsIn(more) == MentionsIn(parts)
  {
    more := parts;
    if cursor < |text| {
      more := AddPart(parts, Plain(text[cursor..]));
    }
    assert text[..cursor] + text[cursor..] == text;
  }

  lemma BackedIsInText(text: Text, cands: seq<Candidate>, r: Range)
    requires Backed(text, cands, r)
    ensures r.start < r.end <= |text|
  {
    var c :| c in cands && IsOf(text, r, c);
    HitIsWritten(text, c.name, r.start);
  }

  lemma SortedRanges(text: Text, cands: seq<Candidate>, ranges: seq<Range>, sorted: seq<Range>)
    requires AllBacked(text, cands, ranges) && forall y :: y in sorted <==> y in ranges
    ensures InText(text, sorted) && AllBacked(text, cands, sorted)
  {
    forall i | 0 <= i < |sorted|
      ensures Backed(text, cands, sorted[i]) && sorted[i].start < sorted[i].end <= |text|
    {
      assert sorted[i] in ranges;
      var k :| 0 <= k < |ranges| && ranges[k] == sorted[i];
      assert Backed(text, cands, ranges[k]);
      BackedIsInText(text, cands, sorted[i]);
    }
  }

  /** The segments put together are the message; the mentions among them are the ranges, in order and apart. */
  method SplitMentions(text: Text, myName: Text, members: seq<Text>)
    returns (parts: seq<Segment>, ghost cands: seq<Candidate>, ghost ranges: seq<Range>)
    ensures Joined(parts) == text
    ensures Candidates(cands, myName, members) && RangesOf(text, cands, ranges)
    ensures
      && AllBacked(text, cands, SortByStart(ranges)) && InText(text, SortByStart(ranges))
      && MentionsIn(parts) == SegmentsOf(text, SortByStart(ranges))
    ensures (exists s <- MentionsIn(parts) :: s.self) ==> Addressed(text, myName)
    ensures Addressed(text, myName) ==> MentionsIn(parts) != []
  {
    var collected := CollectCandidates(myName, members);
    var names := SortByLength(collected);
    var found := FindRanges(text, names);
    var sorted := SortByStart(found);
    SortedRanges(text, names, found, sorted);
    parts := CutUp(text, sorted);
    cands, ranges := names, found;
    SameCandidates(collected, names, myName, members);
    if exists s <- MentionsIn(parts) :: s.self {
      var i :| 0 <= i < |sorted| && sorted[i].self;
      SelfIsAddressed(text, myName, members, names, sorted[i]);
    }
    if Addressed(text, myName) {
      AddressedIsMentioned(text, myName, members, names, found);
    }
  }

  lemma SameCandidates(a: seq<Candidate>, b: seq<Candidate>, myName: Text, members: seq<Text>)
    requires Candidates(a, myName, members) && forall c :: c in a <==> c in b
    ensures Candidates(b, myName, members)
  {
    assert forall name :: Named(a, name) <==> Named(b, name);
  }

  lemma SelfIsAddressed(text: Text, myName: Text, members: seq<Text>, cands: seq<Candidate>, r: Range)
    requires Candidates(cands, myName, members) && Backed(text, cands, r) && r.self
    ensures Addressed(text, myName)
  {
    var c :| c in cands && IsOf(text, r, c);
  }

  lemma AddressedIsMentioned(text: Text, myName: Text, members: seq<Text>, cands: seq<Candidate>, ranges: seq<Range>)
    requires Candidates(cands, myName, members) && RangesOf(text, cands, ranges) && Addressed(text, myName)
    ensures ranges != []
  {
    var name := if Hits(text, ALL, 0) != [] then ALL else Trim(myName);
    assert Wanted(myName, members, name) && Named(cands, name);
    var c :| c in cands && c.name == name;
    assert Served(text, c, ranges) && Covered(ranges, Hits(text, name, 0)[0], |name| + 1);
  }

  /** Every range lies in the text and overlaps no other. */
  lemma RangeAlone(text: Text, cands: seq<Candidate>, ranges: seq<Range>, r: Range)
    requires RangesOf(text, cands, ranges) && r in ranges
    ensures r.start < r.end <= |text| && Backed(text, cands, r)
    ensures forall other <- ranges :: other == r || !Overlaps(other, r.start, r.end)
  {
    var i :| 0 <= i < |ranges| && ranges[i] == r;
    assert Backed(text, cands, ranges[i]);
    BackedIsInText(text, cands, r);
  }

  // ----- when the two judgements agree -----

  /** No mention of one candidate can begin within a mention of another, or of itself. */
  ghost predicate NoneCross(cands: seq<Candidate>) {
    forall c <- cands, d <- cands, k: nat | k <= |c.name| :: !Crosses(c.name, d.name, k)
  }

  /** The candidate is written there, and no longer name of somebody else is. */
  ghost predicate Stands(text: Text, cands: seq<Candidate>, c: Candidate, at: nat) {
    && c in cands && c.self && Written(text, c.name, at)
    && forall d <- cands | !d.self && |d.name| > |c.name| :: !Written(text, d.name, at)
  }

  lemma HitIffWritten(text: Text, cands: seq<Candidate>, c: Candidate, at: nat)
    requires NoneCross(cands) && c in cands
    ensures at in Hits(text, c.name, 0) <==> Written(text, c.name, at)
  {
    FoundIffWritten(text, c.name, at);
  }

  /** Two mentions overlap only if they begin together. */
  lemma SameStart(text: Text, cands: seq<Candidate>, c: Candidate, d: Candidate, i: nat, j: nat)
    requires NoneCross(cands) && c in cands && d in cands && Written(text, c.name, i) && Written(text, d.name, j)
    requires i < j + |d.name| + 1 && j < i + |c.name| + 1
    ensures i == j
  {
    if i < j {
      WithinIsCrossing(text, c.name, d.name, i, j);
    } else if j < i {
      WithinIsCrossing(text, d.name, c.name, j, i);
    }
  }

  /** Where a candidate is written, a range begins that is no shorter. */
  lemma RangeBegins(text: Text, cands: seq<Candidate>, ranges: seq<Range>, c: Candidate, at: nat) returns (r: Range, e: Candidate)
    requires RangesOf(text, cands, ranges) && NoneCross(cands) && c in cands && Written(text, c.name, at)
    ensures r in ranges && r.start == at && r.end >= at + |c.name| + 1
    ensures e in cands && IsOf(text, r, e) && Written(text, e.name, at) && |e.name| >= |c.name|
  {
    HitIffWritten(text, cands, c, at);
    var hits := Hits(text, c.name, 0);
    var k :| 0 <= k < |hits| && hits[k] == at;
    assert Served(text, c, ranges) && Covered(ranges, hits[k], |c.name| + 1);
    r :| r in ranges && Covers(r, at, |c.name| + 1);
    RangeAlone(text, cands, ranges, r);
    e :| e in cands && IsOf(text, r, e);
    HitIsWritten(text, e.name, r.start);
    SameStart(text, cands, c, e, at, r.start);
  }

  lemma SelfStands(text: Text, cands: seq<Candidate>, ranges: seq<Range>, r: Range) returns (c: Candidate)
    requires RangesOf(text, cands, ranges) && NoneCross(cands) && r in ranges && r.self
    ensures Stands(text, cands, c, r.start)
  {
    RangeAlone(text, cands, ranges, r);
    c :| c in cands && IsOf(text, r, c);
    HitIsWritten(text, c.name, r.start);
    forall d <- cands | !d.self && |d.name| > |c.name|
      ensures !Written(text, d.name, r.start)
    {
      if Written(text, d.name, r.start) {
        var other, e := RangeBegins(text, cands, ranges, d, r.start);
      }
    }
  }

  lemma SameName(text: Text, a: Text, b: Text, at: nat)
    requires Written(text, a, at) && Written(text, b, at) && |a| == |b|
    ensures a == b
  {
    assert Token(a)[1..] == a && Token(b)[1..] == b;
  }

  lemma StandingIsShown(text: Text, cands: seq<Candidate>, ranges: seq<Range>, myName: Text, members: seq<Text>, c: Candidate, at: nat)
    returns (r: Range)
    requires Candidates(cands, myName, members) && RangesOf(text, cands, ranges) && NoneCross(cands)
    requires Stands(text, cands, c, at)
    ensures r in ranges && r.self
  {
    var e;
    r, e := RangeBegins(text, cands, ranges, c, at);
    if !e.self {
      assert |e.name| == |c.name|;
      SameName(text, e.name, c.name, at);
    }
  }

  /** A segment for oneself is shown exactly if somewhere one is mentioned and no longer name of somebody else stands there. */
  lemma SelfShownIff(text: Text, cands: seq<Candidate>, ranges: seq<Range>, myName: Text, members: seq<Text>)
    requires Candidates(cands, myName, members) && RangesOf(text, cands, ranges) && NoneCross(cands)
    ensures (exists r <- ranges :: r.self) <==> exists c, at: nat :: Stands(text, cands, c, at)
  {
    if r :| r in ranges && r.self {
      var c := SelfStands(text, cands, ranges, r);
    }
    if c, at: nat :| Stands(text, cands, c, at) {
      var r := StandingIsShown(text, cands, ranges, myName, members, c, at);
    }
  }

  lemma AddressedIffWritten(text: Text, cands: seq<Candidate>, myName: Text, members: seq<Text>)
    requires Candidates(cands, myName, members) && NoneCross(cands)
    ensures Addressed(text, myName) <==> exists c, at: nat :: c in cands && c.self && Written(text, c.name, at)
  {
    if Addressed(text, myName) {
      var name := if Hits(text, ALL, 0) != [] then ALL else Trim(myName);
      assert Wanted(myName, members, name) && Named(cands, name);
      var c :| c in cands && c.name == name;
      HitIsWritten(text, name, Hits(text, name, 0)[0]);
    }
    if c, at: nat :| c in cands && c.self && Written(text, c.name, at) {
      HitIffWritten(text, cands, c, at);
    }
  }

  /**
    Being mentioned and being shown so agree exactly if one is not mentioned at all, or is mentioned
    at some place where no longer name of somebody else is written.
  */
  lemma JudgementsAgreeIff(text: Text, cands: seq<Candidate>, ranges: seq<Range>, myName: Text, members: seq<Text>)
    requires Candidates(cands, myName, members) && RangesOf(text, cands, ranges) && NoneCross(cands)
    ensures (Addressed(text, myName) <==> exists r <- ranges :: r.self) <==>
      || (forall c, at: nat | c in cands && c.self :: !Written(text, c.name, at))
      || exists c, at: nat :: Stands(text, cands, c, at)
  {
    SelfShownIff(text, cands, ranges, myName, members);
    AddressedIffWritten(text, cands, myName, members);
  }

  /** A range over the whole text is the only one. */
  lemma OnlyTheWhole(text: Text, cands: seq<Candidate>, ranges: seq<Range>, whole: Range, r: Range)
    requires RangesOf(text, cands, ranges) && whole in ranges && r in ranges && whole.end - whole.start >= |text|
    ensures r == whole && r.start == 0 && r.end == |text| && Backed(text, cands, r)
  {
    RangeAlone(text, cands, ranges, whole);
    RangeAlone(text, cands, ranges, r);
  }

  lemma WholeIsCovered(cands: seq<Candidate>, ranges: seq<Range>, d: Candidate) returns (whole: Range)
    requires d in cands && RangesOf(Token(d.name), cands, ranges)
    ensures whole in ranges && whole.end - whole.start >= |d.name| + 1
  {
    var text := Token(d.name);
    HitsStep(text, d.name, 0, 0);
    var hits := Hits(text, d.name, 0);
    assert Served(text, d, ranges) && Covered(ranges, hits[0], |d.name| + 1);
    whole :| whole in ranges && Covers(whole, 0, |d.name| + 1);
  }

  lemma NameOfWhole(name: Text, r: Range, x: Candidate)
    requires IsOf(Token(name), r, x) && r.start == 0 && r.end == |name| + 1
    ensures x.name == name
  {
    HitIsWritten(Token(name), x.name, 0);
    assert Token(name)[1..] == name && Token(x.name)[1..] == x.name;
  }

  /** A message that is nothing but the mention of somebody else shows nothing for oneself. */
  lemma OnlySomebodyElse(cands: seq<Candidate>, ranges: seq<Range>, myName: Text, members: seq<Text>, d: Candidate)
    requires Candidates(cands, myName, members) && d in cands && !d.self && RangesOf(Token(d.name), cands, ranges)
    ensures forall r <- ranges :: !r.self
  {
    var whole := WholeIsCovered(cands, ranges, d);
    forall r <- ranges
      ensures !r.self
    {
      OnlyTheWhole(Token(d.name), cands, ranges, whole, r);
      var x :| x in cands && IsOf(Token(d.name), r, x);
      NameOfWhole(d.name, r, x);
    }
  }

  /** One may be addressed and yet see only the longer name of somebody else: `@Al B`, read by Al. */
  lemma LongerNameWins(cands: seq<Candidate>, ranges: seq<Range>)
    requires Candidates(cands, [65, 108], [[65, 108, 32, 66]]) && RangesOf([64, 65, 108, 32, 66], cands, ranges)
    ensures Addressed([64, 65, 108, 32, 66], [65, 108])
    ensures forall r <- ranges :: !r.self
  {
    var text: Text := [64, 65, 108, 32, 66];
    var al, alB: Text := [65, 108], [65, 108, 32, 66];
    assert Token(alB) == text && text[0..3] == Token(al);
    HitsStep(text, al, 0, 0);
    assert Trim(al) == al;
    var d := CandidateOf(cands, al, alB);
    OnlySomebodyElse(cands, ranges, al, [alB], d);
  }

  lemma CandidateOf(cands: seq<Candidate>, mine: Text, other: Text) returns (d: Candidate)
    requires Candidates(cands, mine, [other]) && Trim(mine) == mine && Trim(other) == other
    requires other != [] && other != mine && other != ALL
    ensures d in cands && d.name == other && !d.self
  {
    assert other in [other];
    assert Wanted(mine, [other], other) && Named(cands, other);
    d :| d in cands && d.name == other;
  }

  /** Names that cross are another matter: in `@x @Al`, Al stands behind a space, and yet only the mention of `x @Al` is shown. */
  lemma CrossingNameHides(cands: seq<Candidate>, ranges: seq<Range>)
    requires Candidates(cands, [65, 108], [[120, 32, 64, 65, 108]]) && RangesOf([64, 120, 32, 64, 65, 108], cands, ranges)
    ensures exists c, at: nat :: Stands([64, 120, 32, 64, 65, 108], cands, c, at)
    ensures forall r <- ranges :: !r.self
  {
    var text: Text := [64, 120, 32, 64, 65, 108];
    var al, other: Text := [65, 108], [120, 32, 64, 65, 108];
    assert Token(other) == text;
    assert Trim(al) == al && Trim(other) == other;
    var d := CandidateOf(cands, al, other);
    OnlySomebodyElse(cands, ranges, al, [other], d);
    assert Wanted(al, [other], al) && Named(cands, al);
    var c :| c in cands && c.name == al;
    AlStands(text, cands, c);
  }

  lemma AlStands(text: Text, cands: seq<Candidate>, c: Candidate)
    requires text == [64, 120, 32, 64, 65, 108] && c in cands && c.name == [65, 108] && c.self
    ensures Stands(text, cands, c, 3)
  {
    assert text[3..6] == Token(c.name);
    assert forall d <- cands | |d.name| > 2 :: |Token(d.name)| > 3 && !Occurs(text, Token(d.name), 3);
  }
}
