/**
 * The array operations the storage manager applies to a loaded collection:
 * `findIndex` by id, the object spread `{...old, ...patch}`, `filter`, a
 * `reduce` that adds up amounts, and the delete-by-id filter.
 */
module RecordLists {
  import opened Values

  /** `r.id` */
  function Id(r: Record): Value {
    Get(r, "id")
  }

  /** `list.findIndex(r => r.id === id)`: the first index holding that id, or -1. */
  function FindIndex(s: seq<Record>, id: Value): (i: int)
    ensures -1 <= i < |s|
    ensures i >= 0 ==> Id(s[i]) == id && forall j :: 0 <= j < i ==> Id(s[j]) != id
    ensures i == -1 <==> forall j :: 0 <= j < |s| ==> Id(s[j]) != id
  {
    if |s| == 0 then -1
    else if Id(s[0]) == id then 0
    else
      var k := FindIndex(s[1..], id);
      if k == -1 then -1 else k + 1
  }

  /** `{ ...base, ...patch }`: every field of both, the patch winning on shared names. */
  function Merge(base: Record, patch: Record): (r: Record)
    ensures r.Keys == base.Keys + patch.Keys
    ensures forall k :: k in patch ==> r[k] == patch[k]
    ensures forall k :: k in base && k !in patch ==> r[k] == base[k]
  {
    base + patch
  }

  /** `list.filter(p)` */
  function Filter(s: seq<Record>, p: Record -> bool): (r: seq<Record>)
    ensures |r| <= |s|
    ensures forall x :: x in r <==> x in s && p(x)
  {
    if |s| == 0 then []
    else if p(s[|s| - 1]) then Filter(s[..|s| - 1], p) + [s[|s| - 1]]
    else Filter(s[..|s| - 1], p)
  }

  /** The test `r => r.id !== id`. */
  function IdIsNot(id: Value): Record -> bool {
    (r: Record) => Id(r) != id
  }

  /** `list.filter(r => r.id !== id)` */
  function RemoveId(s: seq<Record>, id: Value): seq<Record> {
    Filter(s, IdIsNot(id))
  }

  /** `list.reduce((sum, x) => sum + f(x), 0)` */
  function SumOf(s: seq<Record>, f: Record -> Number): Number {
    if |s| == 0 then Fin(0.0) else Plus(SumOf(s[..|s| - 1], f), f(s[|s| - 1]))
  }

  // ---------------------------------------------------------------------------
  // filter

  /** Filtering works element by element, so it keeps the order of what it keeps. */
  lemma {:induction false} FilterAppend(a: seq<Record>, b: seq<Record>, p: Record -> bool)
    ensures Filter(a + b, p) == Filter(a, p) + Filter(b, p)
  {
    if |b| == 0 {
      assert a + b == a;
    } else {
      var b' := b[..|b| - 1];
      assert (a + b)[..|a + b| - 1] == a + b';
      FilterAppend(a, b', p);
    }
  }

  /** The filtered list has the full length exactly when every element passes, and is then the list itself. */
  lemma {:induction false} FilterKeepsAll(s: seq<Record>, p: Record -> bool)
    ensures |Filter(s, p)| == |s| <==> forall i :: 0 <= i < |s| ==> p(s[i])
    ensures (forall i :: 0 <= i < |s| ==> p(s[i])) ==> Filter(s, p) == s
  {
    if |s| > 0 {
      var s' := s[..|s| - 1];
      FilterKeepsAll(s', p);
      assert s' + [s[|s| - 1]] == s;
      if !p(s[|s| - 1]) {
        assert |Filter(s, p)| <= |s'|;
      } else if forall i :: 0 <= i < |s'| ==> p(s'[i]) {
      } else {
        var i :| 0 <= i < |s'| && !p(s'[i]);
        assert !p(s[i]);
      }
    }
  }

  /** Of two conditions no element meets together, the elements meeting each add up to at most the whole. */
  lemma {:induction false} FilterDisjoint(s: seq<Record>, p: Record -> bool, q: Record -> bool)
    requires forall x :: x in s ==> !(p(x) && q(x))
    ensures |Filter(s, p)| + |Filter(s, q)| <= |s|
  {
    if |s| > 0 {
      FilterDisjoint(s[..|s| - 1], p, q);
    }
  }

  // ---------------------------------------------------------------------------
  // Deleting by id

  /** Deleting removes every record with that id, keeps every other one in order, and
      changes the length exactly when some record had the id. */
  lemma {:induction false} RemoveIdSpec(s: seq<Record>, id: Value)
    ensures forall r :: r in RemoveId(s, id) <==> r in s && Id(r) != id
    ensures |RemoveId(s, id)| == |s| <==> forall i :: 0 <= i < |s| ==> Id(s[i]) != id
    ensures (forall i :: 0 <= i < |s| ==> Id(s[i]) != id) ==> RemoveId(s, id) == s
    ensures FindIndex(s, id) == -1 <==> |RemoveId(s, id)| == |s|
  {
    FilterKeepsAll(s, IdIsNot(id));
  }

  /** Deleting distributes over concatenation, so the survivors keep their relative order. */
  lemma RemoveIdAppend(a: seq<Record>, b: seq<Record>, id: Value)
    ensures RemoveId(a + b, id) == RemoveId(a, id) + RemoveId(b, id)
  {
    FilterAppend(a, b, IdIsNot(id));
  }

  /** Deleting twice is deleting once. */
  lemma RemoveIdIdempotent(s: seq<Record>, id: Value)
    ensures RemoveId(RemoveId(s, id), id) == RemoveId(s, id)
  {
    RemoveIdSpec(RemoveId(s, id), id);
  }

  // ---------------------------------------------------------------------------
  // Updating the first match

  /** The list after `list[i] = {...list[i], ...patch}` at the first index holding the id. */
  function UpdateFirst(s: seq<Record>, id: Value, patch: Record): seq<Record> {
    var i := FindIndex(s, id);
    if i == -1 then s else s[i := Merge(s[i], patch)]
  }

  /** Only the first record with the id changes, to the merge of itself with the patch;
      a missing id leaves the list unchanged. */
  lemma UpdateFirstSpec(s: seq<Record>, id: Value, patch: Record)
    ensures |UpdateFirst(s, id, patch)| == |s|
    ensures FindIndex(s, id) == -1 ==> UpdateFirst(s, id, patch) == s
    ensures var i := FindIndex(s, id);
      i >= 0 ==>
        && UpdateFirst(s, id, patch)[i] == s[i] + patch
        && (forall j :: 0 <= j < |s| && j != i ==> UpdateFirst(s, id, patch)[j] == s[j])
        && (forall j :: 0 <= j < i ==> Id(s[j]) != id)
  {
  }

  /** A patch that does not touch `id` keeps the updated record findable at the same place. */
  lemma UpdateFirstKeepsIndex(s: seq<Record>, id: Value, patch: Record)
    requires "id" !in patch
    ensures FindIndex(UpdateFirst(s, id, patch), id) == FindIndex(s, id)
  {
    var i := FindIndex(s, id);
    var t := UpdateFirst(s, id, patch);
    if i >= 0 {
      assert Id(t[i]) == id;
      assert forall j :: 0 <= j < i ==> t[j] == s[j];
      FindIndexFirst(t, id, i);
    }
  }

  lemma FindIndexFirst(s: seq<Record>, id: Value, i: int)
    requires 0 <= i < |s| && Id(s[i]) == id && forall j :: 0 <= j < i ==> Id(s[j]) != id
    ensures FindIndex(s, id) == i
  {
  }

  // ---------------------------------------------------------------------------
  // Sums

  /** reduce over a concatenation continues from the sum of the first part. */
  lemma {:induction false} SumOfAppend(a: seq<Record>, b: seq<Record>, f: Record -> Number)
    ensures SumOf(a + b, f) == Plus(SumOf(a, f), SumOf(b, f))
  {
    if |b| == 0 {
      assert a + b == a;
    } else {
      var b' := b[..|b| - 1];
      assert (a + b)[..|a + b| - 1] == a + b';
      SumOfAppend(a, b', f);
    }
  }

  /** The sum is a finite number exactly when every term is. */
  lemma {:induction false} SumOfFinite(s: seq<Record>, f: Record -> Number)
    ensures SumOf(s, f).Fin? <==> forall i :: 0 <= i < |s| ==> f(s[i]).Fin?
  {
    if |s| > 0 {
      var s' := s[..|s| - 1];
      SumOfFinite(s', f);
      assert forall i :: 0 <= i < |s'| ==> s'[i] == s[i];
    }
  }
}
