/** The daily files of connection quality and their pruning (crates/peercove-cli/src/quality.rs, 337-352, 403-436 and 454-459). */
module QualityFiles {
  import opened Calendar

  const RETENTION_MS: nat := 7 * MS_PER_DAY
  const MAX_TOTAL_BYTES: nat := 33_554_432

  /** The times of the samples in a file, and its size. */
  datatype File = File(samples: seq<nat>, size: nat)

  /** The day of the local calendar, for an offset from UTC in milliseconds. */
  function LocalDay(ms: nat, offset: int): nat {
    (if ms + offset > 0 then ms + offset else 0) / MS_PER_DAY
  }

  /** Days begin at midnight of the local time. */
  lemma LocalDayIs(ms: nat, offset: int)
    requires ms + offset >= 0
    ensures LocalDay(ms, offset) * MS_PER_DAY <= ms + offset < (LocalDay(ms, offset) + 1) * MS_PER_DAY
  {
  }

  function LocalDate(ms: nat, offset: int): (name: string) {
    DatesExist(ms, offset);
    NameOf(CivilDate(LocalDay(ms, offset)))
  }

  lemma DatesExist(ms: nat, offset: int)
    ensures Valid(CivilDate(LocalDay(ms, offset))) && CivilDate(LocalDay(ms, offset)).year >= 0
  {
    CivilDateIsNth(LocalDay(ms, offset));
    YearsFrom1970(LocalDay(ms, offset));
  }

  function Cutoff(now: nat): nat {
    if now >= RETENTION_MS then now - RETENTION_MS else 0
  }

  predicate FourDigits(ms: nat, offset: int) {
    CivilDate(LocalDay(ms, offset)).year < 10_000
  }

  /** What is filed under a date before that of the cutoff is older than the cutoff. */
  lemma EarlierFileIsOlder(sample: nat, cutoff: nat, offset: int)
    requires FourDigits(sample, offset) && FourDigits(cutoff, offset)
    ensures Before(LocalDate(sample, offset), LocalDate(cutoff, offset)) <==> LocalDay(sample, offset) < LocalDay(cutoff, offset)
    ensures Before(LocalDate(sample, offset), LocalDate(cutoff, offset)) ==> sample < cutoff
  {
    NamesOrderAsDays(LocalDay(sample, offset), LocalDay(cutoff, offset));
    if sample >= cutoff {
      LaterIsNoEarlierDay(cutoff, sample, offset);
    }
  }

  lemma LaterIsNoEarlierDay(a: nat, b: nat, offset: int)
    requires a <= b
    ensures LocalDay(a, offset) <= LocalDay(b, offset)
  {
    DayIsMonotone(if a + offset > 0 then a + offset else 0, if b + offset > 0 then b + offset else 0);
  }

  lemma DayIsMonotone(a: nat, b: nat)
    requires a <= b
    ensures a / MS_PER_DAY <= b / MS_PER_DAY
  {
  }

  /** Each sample lies in the file of its day. */
  ghost predicate Filed(files: map<string, File>, offset: int) {
    forall f <- files, ms <- files[f].samples ::
      FourDigits(ms, offset) && LocalDate(ms, offset) == f
  }

  function Total(files: map<string, File>, order: seq<string>): nat {
    if order == [] then 0 else (if order[0] in files then files[order[0]].size else 0) + Total(files, order[1..])
  }

  /** How many of the files, oldest first, have to go. */
  function Excess(files: map<string, File>, order: seq<string>): (k: nat)
    ensures k <= |order| && Total(files, order[k..]) <= MAX_TOTAL_BYTES
    ensures forall j | 0 <= j < k :: Total(files, order[j..]) > MAX_TOTAL_BYTES
  {
    assert order[0..] == order;
    if Total(files, order) <= MAX_TOTAL_BYTES then 0
    else
      var k := Excess(files, order[1..]);
      assert forall j | 1 <= j <= k + 1 :: order[j..] == order[1..][j - 1..];
      k + 1
  }

  function NotBefore(order: seq<string>, date: string): (r: seq<string>)
    ensures forall f :: f in r <==> f in order && !Before(f, date)
  {
    if order == [] then []
    else
      var last := order[|order| - 1];
      assert order == order[..|order| - 1] + [last];
      NotBefore(order[..|order| - 1], date) + if Before(last, date) then [] else [last]
  }

  // ----- the order of the files -----

  /** Files are sorted by their whole names. */
  predicate Sooner(f: string, g: string) {
    Before(f + ".jsonl", g + ".jsonl")
  }

  ghost predicate InOrder(order: seq<string>) {
    forall i, j | 0 <= i < j < |order| :: Sooner(order[i], order[j])
  }

  function Inserted(f: string, order: seq<string>): (r: seq<string>)
    ensures forall g :: g in r <==> g == f || g in order
  {
    if order == [] then [f]
    else if Sooner(f, order[0]) then [f] + order
    else [order[0]] + Inserted(f, order[1..])
  }

  function ByName(listed: seq<string>): (r: seq<string>)
    ensures forall f :: f in r <==> f in listed
  {
    if listed == [] then [] else Inserted(listed[0], ByName(listed[1..]))
  }

  lemma SoonerIsTotal(f: string, g: string)
    ensures Sooner(f, g) || f == g || Sooner(g, f)
    ensures !Sooner(f, f)
  {
    Trichotomy(f + ".jsonl", g + ".jsonl");
    Trichotomy(f + ".jsonl", f + ".jsonl");
    if f + ".jsonl" == g + ".jsonl" {
      assert f == (f + ".jsonl")[..|f|] && g == (g + ".jsonl")[..|g|];
    }
  }

  lemma {:induction false} InsertedInOrder(f: string, order: seq<string>)
    requires InOrder(order) && f !in order
    ensures InOrder(Inserted(f, order))
  {
    if order != [] {
      SoonerIsTotal(f, order[0]);
      if Sooner(f, order[0]) {
        forall i | 0 < i < |order|
          ensures Sooner(f, order[i])
        {
          BeforeThrough(f + ".jsonl", order[0] + ".jsonl", order[i] + ".jsonl");
        }
      } else {
        InsertedInOrder(f, order[1..]);
        BeforeAll(f, order);
      }
    }
  }

  lemma BeforeAll(f: string, order: seq<string>)
    requires order != [] && InOrder(order) && Sooner(order[0], f)
    ensures forall i | 0 <= i < |Inserted(f, order[1..])| :: Sooner(order[0], Inserted(f, order[1..])[i])
  {
    var rest := Inserted(f, order[1..]);
    forall i | 0 <= i < |rest|
      ensures Sooner(order[0], rest[i])
    {
      assert rest[i] in rest;
      if rest[i] != f {
        var k :| 0 <= k < |order| - 1 && order[1..][k] == rest[i];
        assert order[k + 1] == rest[i];
      }
    }
  }

  lemma {:induction false} ByNameInOrder(listed: seq<string>)
    requires forall i, j | 0 <= i < j < |listed| :: listed[i] != listed[j]
    ensures InOrder(ByName(listed))
  {
    if listed != [] {
      ByNameInOrder(listed[1..]);
      InsertedInOrder(listed[0], ByName(listed[1..]));
    }
  }

  lemma {:induction false} StaysInOrder(order: seq<string>, date: string)
    requires InOrder(order)
    ensures InOrder(NotBefore(order, date))
  {
    if order != [] {
      var n := |order| - 1;
      StaysInOrder(order[..n], date);
      var rest := NotBefore(order[..n], date);
      forall i | 0 <= i < |rest|
        ensures Sooner(rest[i], order[n])
      {
        assert rest[i] in order[..n];
      }
    }
  }

  lemma InOrderIsDistinct(order: seq<string>)
    requires InOrder(order)
    ensures forall i, j | 0 <= i < j < |order| :: order[i] != order[j]
  {
    forall i, j | 0 <= i < j < |order|
      ensures order[i] != order[j]
    {
      SoonerIsTotal(order[i], order[i]);
      assert Sooner(order[i], order[j]);
    }
  }

  lemma FirstsAreSooner(rest: seq<string>, k: nat, f: string, g: string)
    requires InOrder(rest) && k <= |rest| && f in rest && f !in rest[k..] && g in rest[k..]
    ensures Sooner(f, g)
  {
    var i :| 0 <= i < |rest| && rest[i] == f;
    var j :| 0 <= j < |rest| - k && rest[k..][j] == g;
    assert rest[k + j] == g;
    assert forall m | k <= m < |rest| :: rest[m] == rest[k..][m - k];
  }

  /** Daily files sort as their days do. */
  lemma SoonerIsOlder(a: nat, b: nat, offset: int)
    requires FourDigits(a, offset) && FourDigits(b, offset)
    ensures Sooner(LocalDate(a, offset), LocalDate(b, offset)) <==> LocalDay(a, offset) < LocalDay(b, offset)
  {
    EarlierFileIsOlder(a, b, offset);
    DatesExist(a, offset);
    DatesExist(b, offset);
    NameInParts(CivilDate(LocalDay(a, offset)));
    NameInParts(CivilDate(LocalDay(b, offset)));
    SuffixesCancel(LocalDate(a, offset), LocalDate(b, offset), ".jsonl");
  }

  lemma {:induction false} SameExcess(a: map<string, File>, b: map<string, File>, rest: seq<string>)
    requires forall i | 0 <= i < |rest| :: rest[i] in a && rest[i] in b && a[rest[i]] == b[rest[i]]
    ensures Total(a, rest) == Total(b, rest) && Excess(a, rest) == Excess(b, rest)
  {
    if rest != [] {
      SameExcess(a, b, rest[1..]);
    }
  }

  class QualityFolder {
    var files: map<string, File>

    /**
      `listed` is the directory in any order. Whole files go: first those of days before the cutoff,
      then, as long as the rest is too large, the first of the rest by name.
    */
    method Prune(now: nat, offset: int, listed: seq<string>)
      requires forall f :: f in listed <==> f in files
      requires forall i, j | 0 <= i < j < |listed| :: listed[i] != listed[j]
      modifies this
      ensures
        var rest := NotBefore(ByName(listed), LocalDate(Cutoff(now), offset));
        && (forall f :: f in files <==> f in rest[Excess(old(files), rest)..])
        && (forall f <- files :: f in old(files) && files[f] == old(files)[f])
      ensures forall f <- old(files), g <- files | f !in files :: Before(f, LocalDate(Cutoff(now), offset)) || Sooner(f, g)
    {
      var date := LocalDate(Cutoff(now), offset);
      var order := ByName(listed);
      ByNameInOrder(listed);
      StaysInOrder(order, date);
      var rest := DropEarlier(date, order);
      InOrderIsDistinct(rest);
      SameExcess(old(files), files, rest);
      ghost var k := Excess(old(files), rest);
      RestAfterFirsts(rest, k);
      DropExcess(rest);
      forall f <- old(files), g <- files | f !in files
        ensures Before(f, date) || Sooner(f, g)
      {
        if !Before(f, date) {
          FirstsAreSooner(rest, k, f, g);
        }
      }
    }

    method DropEarlier(date: string, order: seq<string>) returns (rest: seq<string>)
      requires forall f :: f in order <==> f in files
      modifies this
      ensures rest == NotBefore(order, date)
      ensures forall f :: f in files <==> f in rest
      ensures forall f <- files :: f in old(files) && files[f] == old(files)[f]
    {
      rest := [];
      for i := 0 to |order|
        invariant rest == NotBefore(order[..i], date)
        invariant forall f :: f in files <==> f in old(files) && !(f in order[..i] && Before(f, date))
        invariant forall f <- files :: files[f] == old(files)[f]
      {
        assert order[..i + 1] == order[..i] + [order[i]];
        assert order[..i + 1][..i] == order[..i];
        if Before(order[i], date) {
          files := files - {order[i]};
        } else {
          rest := rest + [order[i]];
        }
      }
      assert order[..|order|] == order;
    }

    method DropExcess(rest: seq<string>)
      requires forall f :: f in files <==> f in rest
      requires forall i, j | 0 <= i < j < |rest| :: rest[i] != rest[j]
      modifies this
      ensures files == old(files) - Firsts(rest, Excess(old(files), rest))
    {
      files := Reduced(files, rest);
    }

    static method Reduced(all: map<string, File>, rest: seq<string>) returns (left: map<string, File>)
      requires forall i | 0 <= i < |rest| :: rest[i] in all
      requires forall i, j | 0 <= i < j < |rest| :: rest[i] != rest[j]
      ensures left == all - Firsts(rest, Excess(all, rest))
    {
      left := all;
      var total := Total(all, rest);
      var i: nat := 0;
      assert rest[0..] == rest;
      while i < |rest| && total > MAX_TOTAL_BYTES
        invariant i <= |rest| && total == Total(all, rest[i..])
        invariant TooMuchBefore(all, rest, i)
        invariant left == all - Firsts(rest, i)
      {
        TotalStep(all, rest, i);
        NotAmongFirsts(rest, i);
        MoreTooMuch(all, rest, i);
        total := total - left[rest[i]].size;
        left := left - {rest[i]};
        i := i + 1;
      }
      ExcessIs(all, rest, i);
    }
  }

  ghost predicate TooMuchBefore(files: map<string, File>, rest: seq<string>, i: nat)
    requires i <= |rest|
  {
    forall j | 0 <= j < i :: Total(files, rest[j..]) > MAX_TOTAL_BYTES
  }

  lemma MoreTooMuch(files: map<string, File>, rest: seq<string>, i: nat)
    requires i < |rest| && TooMuchBefore(files, rest, i) && Total(files, rest[i..]) > MAX_TOTAL_BYTES
    ensures TooMuchBefore(files, rest, i + 1)
  {
  }

  lemma ExcessIs(files: map<string, File>, rest: seq<string>, i: nat)
    requires i <= |rest| && TooMuchBefore(files, rest, i)
    requires i == |rest| || Total(files, rest[i..]) <= MAX_TOTAL_BYTES
    ensures Excess(files, rest) == i
  {
    assert i == |rest| ==> rest[i..] == [];
  }

  /** The first `i` names. */
  function Firsts(rest: seq<string>, i: nat): set<string>
    requires i <= |rest|
  {
    if i == 0 then {} else Firsts(rest, i - 1) + {rest[i - 1]}
  }

  lemma TotalStep(files: map<string, File>, rest: seq<string>, i: nat)
    requires i < |rest| && rest[i] in files
    ensures Total(files, rest[i..]) == files[rest[i]].size + Total(files, rest[i + 1..])
  {
    assert rest[i..][1..] == rest[i + 1..];
  }

  lemma {:induction false} FirstsAre(rest: seq<string>, i: nat, f: string)
    requires i <= |rest|
    ensures f in Firsts(rest, i) <==> exists j :: 0 <= j < i && rest[j] == f
  {
    if i > 0 {
      FirstsAre(rest, i - 1, f);
    }
  }

  lemma NotAmongFirsts(rest: seq<string>, i: nat)
    requires i < |rest| && forall m, n | 0 <= m < n < |rest| :: rest[m] != rest[n]
    ensures rest[i] !in Firsts(rest, i)
  {
    FirstsAre(rest, i, rest[i]);
  }

  lemma RestAfterFirsts(rest: seq<string>, i: nat)
    requires i <= |rest| && forall m, n | 0 <= m < n < |rest| :: rest[m] != rest[n]
    ensures forall f :: f in rest[i..] <==> f in rest && f !in Firsts(rest, i)
  {
    forall f
      ensures f in rest[i..] <==> f in rest && f !in Firsts(rest, i)
    {
      FirstsAre(rest, i, f);
      if f in rest[i..] {
        var k :| 0 <= k < |rest| - i && rest[i..][k] == f;
        assert rest[i + k] == f;
      }
      if f in rest && f !in Firsts(rest, i) {
        var k :| 0 <= k < |rest| && rest[k] == f;
        assert rest[i..][k - i] == f;
      }
    }
  }

  /** When daily files go to make room, what stays is from later days. */
  lemma RoomIsMadeFromTheOldest(files: map<string, File>, offset: int, f: string, g: string, ms: nat, kept: nat)
    requires Filed(files, offset) && f in files && g in files && Sooner(f, g)
    requires ms in files[f].samples && kept in files[g].samples
    ensures LocalDay(ms, offset) < LocalDay(kept, offset) && ms < kept
  {
    SoonerIsOlder(ms, kept, offset);
    if ms >= kept {
      LaterIsNoEarlierDay(kept, ms, offset);
    }
  }

  /** With a fixed offset, pruning by age loses no sample that is not older than the cutoff. */
  lemma AgePruningIsSafe(files: map<string, File>, order: seq<string>, now: nat, offset: int, f: string, ms: nat)
    requires Filed(files, offset) && FourDigits(Cutoff(now), offset)
    requires f in files && f in order && ms in files[f].samples
    ensures f !in NotBefore(order, LocalDate(Cutoff(now), offset)) <==> LocalDay(ms, offset) < LocalDay(Cutoff(now), offset)
    ensures f !in NotBefore(order, LocalDate(Cutoff(now), offset)) ==> ms + 7 * 86_400_000 < now
  {
    EarlierFileIsOlder(ms, Cutoff(now), offset);
  }
}
