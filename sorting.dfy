/** The `/sort` query: the stored payloads, stably sorted by one numeric
    field, ascending or descending. */
module Sorting {
  import opened Records

  const SortFields: set<string> := {"height", "weight", "bmi"}
  const SortOrders: set<string> := {"asc", "desc"}

  /** `x.get(field, 0)` as a number: a missing field counts as 0, and a value
      that is not a number has no numeric key. */
  function SortKey(p: Payload, field: string): Option<real> {
    if field !in p then Some(0.0)
    else if IsNumber(p[field]) then Some(AsReal(p[field]))
    else None
  }

  /** The key the sort orders by; a payload with no numeric key is only ever
      sorted alone, where its key is never compared. */
  function KeyOf(p: Payload, field: string): real {
    match SortKey(p, field)
    case Some(k) => k
    case None => 0.0
  }

  /** Descending order is ascending order on the negated key. */
  function Rank(p: Payload, field: string, desc: bool): real {
    if desc then -KeyOf(p, field) else KeyOf(p, field)
  }

  predicate Sorted(s: seq<Payload>, field: string, desc: bool) {
    forall i, j :: 0 <= i < j < |s| ==> Rank(s[i], field, desc) <= Rank(s[j], field, desc)
  }

  /** The payloads of `s` whose key is `v`, in their order in `s`. A sort is
      stable when it keeps every one of these subsequences. */
  function WithKey(s: seq<Payload>, field: string, v: real): (r: seq<Payload>)
    ensures forall x :: x in r <==> x in s && KeyOf(x, field) == v
  {
    if s == [] then []
    else (if KeyOf(s[0], field) == v then [s[0]] else []) + WithKey(s[1..], field, v)
  }

  /** Puts `x` before the first payload whose rank is not below its own. */
  function Insert(x: Payload, s: seq<Payload>, field: string, desc: bool): seq<Payload> {
    if s == [] || Rank(x, field, desc) <= Rank(s[0], field, desc) then [x] + s
    else [s[0]] + Insert(x, s[1..], field, desc)
  }

  function StableSort(s: seq<Payload>, field: string, desc: bool): seq<Payload> {
    if s == [] then [] else Insert(s[0], StableSort(s[1..], field, desc), field, desc)
  }

  lemma WithKeyCons(x: Payload, s: seq<Payload>, field: string, v: real)
    ensures WithKey([x] + s, field, v) == (if KeyOf(x, field) == v then [x] else []) + WithKey(s, field, v)
  {
    assert ([x] + s)[1..] == s;
  }

  lemma {:induction false} InsertPermutes(x: Payload, s: seq<Payload>, field: string, desc: bool)
    ensures multiset(Insert(x, s, field, desc)) == multiset(s) + multiset{x}
  {
    if s != [] && Rank(s[0], field, desc) < Rank(x, field, desc) {
      InsertPermutes(x, s[1..], field, desc);
      assert s == [s[0]] + s[1..];
    }
  }

  lemma WithKeySkip(x: Payload, y: Payload, t: seq<Payload>, u: seq<Payload>, field: string, v: real)
    requires KeyOf(y, field) != KeyOf(x, field)
    requires WithKey(t, field, v) == (if KeyOf(x, field) == v then [x] else []) + WithKey(u, field, v)
    ensures WithKey([y] + t, field, v) == (if KeyOf(x, field) == v then [x] else []) + WithKey([y] + u, field, v)
  {
    WithKeyCons(y, t, field, v);
    WithKeyCons(y, u, field, v);
    var rest := WithKey(u, field, v);
    if KeyOf(x, field) == v {
      assert WithKey([y] + t, field, v) == [x] + rest;
      assert WithKey([y] + u, field, v) == rest;
    } else if KeyOf(y, field) == v {
      assert WithKey([y] + t, field, v) == [y] + rest;
    } else {
      assert WithKey([y] + t, field, v) == rest;
    }
  }

  /** Insertion places `x` ahead of every payload of `s` with the same key,
      and moves nothing else. */
  lemma {:induction false} InsertStable(x: Payload, s: seq<Payload>, field: string, desc: bool, v: real)
    ensures WithKey(Insert(x, s, field, desc), field, v)
            == (if KeyOf(x, field) == v then [x] else []) + WithKey(s, field, v)
  {
    if s == [] || Rank(x, field, desc) <= Rank(s[0], field, desc) {
      WithKeyCons(x, s, field, v);
    } else {
      InsertStable(x, s[1..], field, desc, v);
      // s[0] ranks strictly below x, so their keys differ
      assert KeyOf(s[0], field) != KeyOf(x, field);
      WithKeySkip(x, s[0], Insert(x, s[1..], field, desc), s[1..], field, v);
      assert s == [s[0]] + s[1..];
    }
  }

  /** Every payload of `s` ranks at least `k`. */
  predicate RanksAtLeast(s: seq<Payload>, k: real, field: string, desc: bool) {
    forall i :: 0 <= i < |s| ==> k <= Rank(s[i], field, desc)
  }

  lemma SortedCons(x: Payload, s: seq<Payload>, field: string, desc: bool)
    requires Sorted(s, field, desc) && RanksAtLeast(s, Rank(x, field, desc), field, desc)
    ensures Sorted([x] + s, field, desc)
  {
    var r := [x] + s;
    forall i, j | 0 <= i < j < |r| ensures Rank(r[i], field, desc) <= Rank(r[j], field, desc) {
      assert r[j] == s[j - 1];
      if i > 0 {
        assert r[i] == s[i - 1];
      }
    }
  }

  lemma {:induction false} InsertRanksAtLeast(x: Payload, s: seq<Payload>, k: real, field: string, desc: bool)
    requires RanksAtLeast(s, k, field, desc) && k <= Rank(x, field, desc)
    ensures RanksAtLeast(Insert(x, s, field, desc), k, field, desc)
  {
    if s != [] && Rank(s[0], field, desc) < Rank(x, field, desc) {
      InsertRanksAtLeast(x, s[1..], k, field, desc);
      var r := Insert(x, s, field, desc);
      var t := Insert(x, s[1..], field, desc);
      assert r == [s[0]] + t;
      forall i | 0 <= i < |r| ensures k <= Rank(r[i], field, desc) {
        if i > 0 {
          assert r[i] == t[i - 1];
        }
      }
    }
  }

  /** Insertion keeps a sorted sequence sorted. */
  lemma {:induction false} InsertSorted(x: Payload, s: seq<Payload>, field: string, desc: bool)
    requires Sorted(s, field, desc)
    ensures Sorted(Insert(x, s, field, desc), field, desc)
  {
    if s == [] || Rank(x, field, desc) <= Rank(s[0], field, desc) {
      SortedCons(x, s, field, desc);
    } else {
      var t := Insert(x, s[1..], field, desc);
      var k := Rank(s[0], field, desc);
      assert Sorted(s[1..], field, desc) by {
        forall i, j | 0 <= i < j < |s[1..]| ensures Rank(s[1..][i], field, desc) <= Rank(s[1..][j], field, desc) {
          assert s[1..][i] == s[i + 1] && s[1..][j] == s[j + 1];
        }
      }
      assert RanksAtLeast(s[1..], k, field, desc) by {
        forall i | 0 <= i < |s[1..]| ensures k <= Rank(s[1..][i], field, desc) {
          assert s[1..][i] == s[i + 1];
        }
      }
      InsertSorted(x, s[1..], field, desc);
      InsertRanksAtLeast(x, s[1..], k, field, desc);
      SortedCons(s[0], t, field, desc);
    }
  }

  /** The sort permutes its input, orders it by rank, and keeps the relative
      order of payloads with equal keys. */
  lemma StableSortCorrect(s: seq<Payload>, field: string, desc: bool)
    ensures multiset(StableSort(s, field, desc)) == multiset(s)
    ensures Sorted(StableSort(s, field, desc), field, desc)
    ensures forall v :: WithKey(StableSort(s, field, desc), field, v) == WithKey(s, field, v)
  {
    StableSortPermutes(s, field, desc);
    StableSortSorted(s, field, desc);
    forall v ensures WithKey(StableSort(s, field, desc), field, v) == WithKey(s, field, v) {
      StableSortStable(s, field, desc, v);
    }
  }

  lemma {:induction false} StableSortPermutes(s: seq<Payload>, field: string, desc: bool)
    ensures multiset(StableSort(s, field, desc)) == multiset(s)
  {
    if s != [] {
      StableSortPermutes(s[1..], field, desc);
      InsertPermutes(s[0], StableSort(s[1..], field, desc), field, desc);
      assert s == [s[0]] + s[1..];
    }
  }

  lemma {:induction false} StableSortSorted(s: seq<Payload>, field: string, desc: bool)
    ensures Sorted(StableSort(s, field, desc), field, desc)
  {
    if s != [] {
      StableSortSorted(s[1..], field, desc);
      InsertSorted(s[0], StableSort(s[1..], field, desc), field, desc);
    }
  }

  lemma {:induction false} StableSortStable(s: seq<Payload>, field: string, desc: bool, v: real)
    ensures WithKey(StableSort(s, field, desc), field, v) == WithKey(s, field, v)
  {
    if s != [] {
      StableSortStable(s[1..], field, desc, v);
      InsertStable(s[0], StableSort(s[1..], field, desc), field, desc, v);
      WithKeyCons(s[0], s[1..], field, v);
      assert s == [s[0]] + s[1..];
    }
  }

  lemma WithKeyHead(s: seq<Payload>, field: string)
    requires s != []
    ensures WithKey(s, field, KeyOf(s[0], field)) != []
    ensures WithKey(s, field, KeyOf(s[0], field))[0] == s[0]
  {
  }

  lemma SortedFirstIsLeast(s: seq<Payload>, x: Payload, field: string, desc: bool)
    requires Sorted(s, field, desc) && x in s
    ensures Rank(s[0], field, desc) <= Rank(x, field, desc)
  {
    var j :| 0 <= j < |s| && s[j] == x;
    if j > 0 {
      assert Rank(s[0], field, desc) <= Rank(s[j], field, desc);
    }
  }

  /** Two sorted sequences with the same subsequence for every key start with
      the same payload. */
  lemma SameFirst(a: seq<Payload>, b: seq<Payload>, field: string, desc: bool)
    requires a != [] && b != []
    requires Sorted(a, field, desc) && Sorted(b, field, desc)
    requires forall v :: WithKey(a, field, v) == WithKey(b, field, v)
    ensures a[0] == b[0]
  {
    var ka, kb := KeyOf(a[0], field), KeyOf(b[0], field);
    WithKeyHead(a, field);
    WithKeyHead(b, field);
    var wa, wb := WithKey(a, field, ka), WithKey(b, field, kb);
    assert WithKey(b, field, ka) == wa && WithKey(a, field, kb) == wb;
    // a[0] occurs in b, so b[0] ranks no higher than a[0], and vice versa
    assert a[0] in b && b[0] in a;
    SortedFirstIsLeast(b, a[0], field, desc);
    SortedFirstIsLeast(a, b[0], field, desc);
    assert ka == kb;
  }

  lemma SameTails(a: seq<Payload>, b: seq<Payload>, field: string, v: real)
    requires a != [] && b != [] && a[0] == b[0]
    requires WithKey(a, field, v) == WithKey(b, field, v)
    ensures WithKey(a[1..], field, v) == WithKey(b[1..], field, v)
  {
    assert a == [a[0]] + a[1..] && b == [b[0]] + b[1..];
    WithKeyCons(a[0], a[1..], field, v);
    WithKeyCons(b[0], b[1..], field, v);
    var head := if KeyOf(a[0], field) == v then [a[0]] else [];
    assert WithKey(a[1..], field, v) == WithKey(a, field, v)[|head|..];
    assert WithKey(b[1..], field, v) == WithKey(b, field, v)[|head|..];
  }

  lemma SortedTail(s: seq<Payload>, field: string, desc: bool)
    requires s != [] && Sorted(s, field, desc)
    ensures Sorted(s[1..], field, desc)
  {
    forall i, j | 0 <= i < j < |s[1..]| ensures Rank(s[1..][i], field, desc) <= Rank(s[1..][j], field, desc) {
      assert s[1..][i] == s[i + 1] && s[1..][j] == s[j + 1];
    }
  }

  /** Two sequences sorted by rank that keep the same subsequence for every
      key are equal: a stable sort has exactly one possible result. */
  lemma {:induction false} StableOrderIsUnique(a: seq<Payload>, b: seq<Payload>, field: string, desc: bool)
    requires Sorted(a, field, desc) && Sorted(b, field, desc)
    requires forall v :: WithKey(a, field, v) == WithKey(b, field, v)
    ensures a == b
  {
    if a == [] && b == [] {
    } else if a == [] {
      WithKeyHead(b, field);
      assert false;
    } else if b == [] {
      WithKeyHead(a, field);
      assert false;
    } else {
      SameFirst(a, b, field, desc);
      forall v ensures WithKey(a[1..], field, v) == WithKey(b[1..], field, v) {
        SameTails(a, b, field, v);
      }
      SortedTail(a, field, desc);
      SortedTail(b, field, desc);
      StableOrderIsUnique(a[1..], b[1..], field, desc);
      assert a == [a[0]] + a[1..] && b == [b[0]] + b[1..];
    }
  }

  /** `sort_patients`: checks its arguments, then stably sorts the payloads by
      `x.get(sort_by, 0)`, reversed for "desc". */
  function SortPatients(values: seq<Payload>, sortBy: string, order: string): (r: Result<seq<Payload>>)
    ensures sortBy !in SortFields ==> r == Err(BadSortField)
    ensures sortBy in SortFields && order !in SortOrders ==> r == Err(BadSortOrder)
    ensures sortBy in SortFields && order in SortOrders ==>
      (r.Err? <==> |values| >= 2 && exists i :: 0 <= i < |values| && SortKey(values[i], sortBy).None?)
    ensures r.Err? ==> r.error.BadSortField? || r.error.BadSortOrder? || r.error.Incomparable?
    ensures r.Ok? ==> multiset(r.value) == multiset(values)
    ensures r.Ok? ==> Ordered(r.value, sortBy, order)
    ensures r.Ok? ==> forall v :: WithKey(r.value, sortBy, v) == WithKey(values, sortBy, v)
  {
    if sortBy !in SortFields then Err(BadSortField)
    else if order !in SortOrders then Err(BadSortOrder)
    else if |values| >= 2 && exists i :: 0 <= i < |values| && SortKey(values[i], sortBy).None? then
      Err(Incomparable)
    else
      StableSortCorrect(values, sortBy, order == "desc");
      Ok(StableSort(values, sortBy, order == "desc"))
  }

  /** Ordered by key in the direction `order` names. */
  predicate Ordered(s: seq<Payload>, sortBy: string, order: string) {
    && (order == "asc" ==> forall i, j :: 0 <= i < j < |s| ==> KeyOf(s[i], sortBy) <= KeyOf(s[j], sortBy))
    && (order == "desc" ==> forall i, j :: 0 <= i < j < |s| ==> KeyOf(s[i], sortBy) >= KeyOf(s[j], sortBy))
  }

  lemma OrderedIsSorted(s: seq<Payload>, sortBy: string, order: string)
    requires order in SortOrders && Ordered(s, sortBy, order)
    ensures Sorted(s, sortBy, order == "desc")
  {
  }

  lemma SortPatientsValue(values: seq<Payload>, sortBy: string, order: string)
    requires SortPatients(values, sortBy, order).Ok?
    ensures order in SortOrders
    ensures SortPatients(values, sortBy, order).value == StableSort(values, sortBy, order == "desc")
  {
  }

  /** Any ordering of the payloads that is sorted in the requested direction
      and stable is the one `SortPatients` returns, whichever stable sorting
      algorithm produced it. */
  lemma SortPatientsIsTheStableSort(values: seq<Payload>, sortBy: string, order: string, out: seq<Payload>)
    requires SortPatients(values, sortBy, order).Ok?
    requires Ordered(out, sortBy, order)
    requires forall v :: WithKey(out, sortBy, v) == WithKey(values, sortBy, v)
    ensures out == SortPatients(values, sortBy, order).value
  {
    var desc := order == "desc";
    SortPatientsValue(values, sortBy, order);
    StableSortCorrect(values, sortBy, desc);
    OrderedIsSorted(out, sortBy, order);
    StableOrderIsUnique(out, StableSort(values, sortBy, desc), sortBy, desc);
  }

  /** Stored payloads written by this API always sort: their keys are numbers. */
  lemma DumpsAreSortable(ps: seq<Patient>, values: seq<Payload>, sortBy: string, order: string)
    requires |ps| == |values| && forall i :: 0 <= i < |ps| ==> ps[i].Valid() && values[i] == Dump(ps[i])
    requires sortBy in SortFields && order in SortOrders
    ensures SortPatients(values, sortBy, order).Ok?
  {
    forall i | 0 <= i < |values| ensures SortKey(values[i], sortBy).Some? {
      assert sortBy in StoredFields;
    }
  }
}
