/** Competition ranking: one pass over the rows sorted by value, highest first. */
module Ranking {
  import opened Prelude
  import opened StableSort

  /** localeCompare on ids, as "not after". */
  type Collation = le: (string, string) -> bool | TotalPreorder(le) witness (x: string, y: string) => true

  datatype Entry = Entry(id: string, value: int)

  datatype RankedEntry = RankedEntry(id: string, value: int, rank: nat)

  function ByValueThenId(le: Collation): (Entry, Entry) -> bool {
    (a: Entry, b: Entry) => a.value > b.value || (a.value == b.value && le(a.id, b.id))
  }

  lemma ByValueThenIdIsPreorder(le: Collation)
    ensures TotalPreorder(ByValueThenId(le))
  {
    var f := ByValueThenId(le);
    assert TotalPreorder(le);
    forall x, y ensures f(x, y) || f(y, x) {
      assert le(x.id, y.id) || le(y.id, x.id);
    }
    forall x, y, z | f(x, y) && f(y, z) ensures f(x, z) {
      assert le(x.id, y.id) && le(y.id, z.id) ==> le(x.id, z.id);
    }
  }

  /** How many entries have a strictly greater value. */
  function Greater(values: seq<Entry>, v: int): nat {
    if values == [] then 0 else (if values[0].value > v then 1 else 0) + Greater(values[1..], v)
  }

  /** The specification: everyone's rank is one plus the number of strictly greater values. */
  function Ranks(values: seq<Entry>, le: Collation): seq<RankedEntry> {
    var sorted := Sort(values, ByValueThenId(le));
    seq(|sorted|, i requires 0 <= i < |sorted| =>
      RankedEntry(sorted[i].id, sorted[i].value, 1 + Greater(values, sorted[i].value)))
  }

  lemma {:induction false} GreaterInserted(x: Entry, s: seq<Entry>, f: (Entry, Entry) -> bool, v: int)
    ensures Greater(Insert(x, s, f), v) == Greater([x] + s, v)
  {
    assert ([x] + s)[1..] == s;
    if s != [] && !f(x, s[0]) {
      GreaterInserted(x, s[1..], f, v);
      assert ([s[0]] + Insert(x, s[1..], f))[1..] == Insert(x, s[1..], f);
      assert ([x] + s[1..])[1..] == s[1..];
    }
  }

  lemma {:induction false} GreaterSorted(s: seq<Entry>, f: (Entry, Entry) -> bool, v: int)
    ensures Greater(Sort(s, f), v) == Greater(s, v)
  {
    if s != [] {
      GreaterSorted(s[1..], f, v);
      GreaterInserted(s[0], Sort(s[1..], f), f, v);
      assert ([s[0]] + Sort(s[1..], f))[1..] == Sort(s[1..], f);
    }
  }

  /** In a sequence that first stays above v and then does not, counting is measuring. */
  lemma {:induction false} GreaterIsPrefix(s: seq<Entry>, n: nat, v: int)
    requires n <= |s|
    requires forall i | 0 <= i < n :: s[i].value > v
    requires forall i | n <= i < |s| :: s[i].value <= v
    ensures Greater(s, v) == n
  {
    if s != [] {
      GreaterIsPrefix(s[1..], if n == 0 then 0 else n - 1, v);
    }
  }

  /** The first row of a value stands at the index that counts the values above it. */
  lemma FirstOfItsValue(values: seq<Entry>, le: Collation, index: nat)
    requires index < |Sort(values, ByValueThenId(le))|
    requires index > 0 ==> Sort(values, ByValueThenId(le))[index - 1].value != Sort(values, ByValueThenId(le))[index].value
    ensures Greater(values, Sort(values, ByValueThenId(le))[index].value) == index
  {
    var f := ByValueThenId(le);
    ByValueThenIdIsPreorder(le);
    SortIsSorted(values, f);
    var sorted := Sort(values, f);
    var v := sorted[index].value;
    forall i | 0 <= i < index ensures sorted[i].value > v {
      assert f(sorted[i], sorted[index - 1]) || i == index - 1;
      assert f(sorted[index - 1], sorted[index]);
    }
    forall i | index <= i < |sorted| ensures sorted[i].value <= v {
      assert i == index || f(sorted[index], sorted[i]);
    }
    GreaterIsPrefix(sorted, index, v);
    GreaterSorted(values, f, v);
  }

  method CompetitionRanks(values: seq<Entry>, le: Collation) returns (rows: seq<RankedEntry>)
    ensures rows == Ranks(values, le)
  {
    hide Greater, Insert, Sort;
    var sorted := Sort(values, ByValueThenId(le));
    var previousValue: Option<int> := None;
    var previousRank := 0;
    rows := [];
    for index := 0 to |sorted|
      invariant |rows| == index
      invariant forall i | 0 <= i < index :: rows[i] == RankedEntry(sorted[i].id, sorted[i].value, 1 + Greater(values, sorted[i].value))
      invariant index == 0 ==> previousValue.None?
      invariant index > 0 ==> previousValue == Some(sorted[index - 1].value) && previousRank == rows[index - 1].rank
    {
      var row := sorted[index];
      var rank := if previousValue == Some(row.value) then previousRank else index + 1;
      if previousValue != Some(row.value) {
        FirstOfItsValue(values, le, index);
      }
      previousValue := Some(row.value);
      previousRank := rank;
      rows := rows + [RankedEntry(row.id, row.value, rank)];
    }
  }

  /** The rows are the input in some order, highest value first, ids in collation order among equals. */
  lemma RanksAreASortedPermutation(values: seq<Entry>, le: Collation)
    ensures
      var rows := Ranks(values, le);
      && |rows| == |values|
      && multiset(seq(|rows|, i requires 0 <= i < |rows| => Entry(rows[i].id, rows[i].value))) == multiset(values)
      && (forall i, j | 0 <= i < j < |rows| ::
            rows[i].value > rows[j].value || (rows[i].value == rows[j].value && le(rows[i].id, rows[j].id)))
  {
    ByValueThenIdIsPreorder(le);
    var f := ByValueThenId(le);
    SortIsSorted(values, f);
    var rows := Ranks(values, le);
    var sorted := Sort(values, f);
    assert seq(|rows|, i requires 0 <= i < |rows| => Entry(rows[i].id, rows[i].value)) == sorted;
    forall i, j | 0 <= i < j < |rows|
      ensures rows[i].value > rows[j].value || (rows[i].value == rows[j].value && le(rows[i].id, rows[j].id))
    {
      assert f(sorted[i], sorted[j]);
    }
  }

  predicate DistinctIds(values: seq<Entry>) {
    forall i, j | 0 <= i < j < |values| :: values[i].id != values[j].id
  }

  /** The rank in the first row that carries the id, if there is one. */
  function FindRank(rows: seq<RankedEntry>, id: string): Option<nat> {
    if rows == [] then None
    else if rows[0].id == id then Some(rows[0].rank)
    else FindRank(rows[1..], id)
  }

  lemma {:induction false} FindRankAt(rows: seq<RankedEntry>, id: string)
    ensures FindRank(rows, id).None? <==> forall i | 0 <= i < |rows| :: rows[i].id != id
    ensures FindRank(rows, id).Some? ==> exists i | 0 <= i < |rows| :: rows[i].id == id && FindRank(rows, id) == Some(rows[i].rank)
  {
    if rows != [] && rows[0].id != id {
      FindRankAt(rows[1..], id);
      if FindRank(rows[1..], id).Some? {
        var i :| 0 <= i < |rows[1..]| && rows[1..][i].id == id && FindRank(rows[1..], id) == Some(rows[1..][i].rank);
        assert rows[i + 1].id == id;
      } else {
        forall i | 0 <= i < |rows| ensures rows[i].id != id {
          if i > 0 { assert rows[1..][i - 1].id != id; }
        }
      }
    }
  }

  /** With distinct ids, looking an id up in the ranking gives one plus the number of values above its own. */
  lemma RankOf(values: seq<Entry>, le: Collation, entry: Entry)
    requires DistinctIds(values) && entry in values
    ensures FindRank(Ranks(values, le), entry.id) == Some(1 + Greater(values, entry.value))
  {
    hide Greater, FindRank, Sort;
    var rows := Ranks(values, le);
    var sorted := Sort(values, ByValueThenId(le));
    assert entry in multiset(sorted);
    var k :| 0 <= k < |sorted| && sorted[k] == entry;
    assert rows[k].id == entry.id;
    FindRankAt(rows, entry.id);
    var i :| 0 <= i < |rows| && rows[i].id == entry.id && FindRank(rows, entry.id) == Some(rows[i].rank);
    assert sorted[i] in multiset(sorted) && sorted[i] in multiset(values);
    var a :| 0 <= a < |values| && values[a] == sorted[i];
    var b :| 0 <= b < |values| && values[b] == entry;
    assert a == b;
  }

  lemma RankOfAbsent(values: seq<Entry>, le: Collation, id: string)
    requires forall i | 0 <= i < |values| :: values[i].id != id
    ensures FindRank(Ranks(values, le), id) == None
  {
    var sorted := Sort(values, ByValueThenId(le));
    forall i | 0 <= i < |sorted| ensures sorted[i].id != id {
      assert sorted[i] in multiset(sorted) && sorted[i] in multiset(values);
    }
    FindRankAt(Ranks(values, le), id);
  }

  lemma IdsAbove(values: seq<Entry>, v: int)
    requires values != [] && DistinctIds(values)
    ensures
      var some := set e | e in values[1..] && e.value > v :: e.id;
      && values[0].id !in some
      && (set e | e in values && e.value > v :: e.id) == if values[0].value > v then some + {values[0].id} else some
  {
    var rest := values[1..];
    var some := set e | e in rest && e.value > v :: e.id;
    forall e | e in rest ensures e.id != values[0].id {
      var j :| 0 <= j < |rest| && rest[j] == e;
      assert values[j + 1] == e;
    }
    assert forall e :: e in values <==> e == values[0] || e in rest by { assert values == [values[0]] + rest; }
    assert (set e | e in values && e.value > v :: e.id) == if values[0].value > v then some + {values[0].id} else some;
  }

  /** Counting entries is counting ids when no id repeats. */
  lemma {:induction false} GreaterCountsIds(values: seq<Entry>, v: int)
    requires DistinctIds(values)
    ensures Greater(values, v) == |set e | e in values && e.value > v :: e.id|
  {
    if values == [] {
      assert (set e | e in values && e.value > v :: e.id) == {};
    } else {
      var rest := values[1..];
      GreaterCountsIds(rest, v);
      IdsAbove(values, v);
    }
  }
}
