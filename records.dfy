/** Lookups by id over a list of records, as `add` performs them with `some`, `find` and `filter`. */
module Records {
  import opened FeedTypes

  /** Some record in `s` carries the item id `id` (`Array.prototype.some`). */
  predicate HasId(s: seq<Record>, id: string)
    ensures HasId(s, id) <==> exists x :: x in s && x.item.id == id
  {
    exists k :: 0 <= k < |s| && s[k].item.id == id
  }

  /** No two records of `s` share an item id. */
  ghost predicate IdsUnique(s: seq<Record>) {
    forall i, j :: 0 <= i < j < |s| ==> s[i].item.id != s[j].item.id
  }

  /** No record of `a` shares an item id with a record of `b`. */
  ghost predicate DisjointIds(a: seq<Record>, b: seq<Record>) {
    forall x, y :: x in a && y in b ==> x.item.id != y.item.id
  }

  /** The first record of `s` carrying `id`, if any (`Array.prototype.find`). */
  function Find(s: seq<Record>, id: string): (r: Option<Record>)
    ensures r.Some? <==> HasId(s, id)
    ensures r.Some? ==> r.value in s && r.value.item.id == id
  {
    if s == [] then None
    else if s[0].item.id == id then Some(s[0])
    else
      assert HasId(s, id) ==> HasId(s[1..], id) by {
        if HasId(s, id) {
          var k :| 0 <= k < |s| && s[k].item.id == id;
          assert s[1..][k - 1] == s[k];
        }
      }
      Find(s[1..], id)
  }

  /** `Find` returns the earliest record with the id, even when later ones share it. */
  lemma {:induction false} FindFirst(s: seq<Record>, id: string, k: nat)
    requires k < |s| && s[k].item.id == id
    requires forall j :: 0 <= j < k ==> s[j].item.id != id
    ensures Find(s, id) == Some(s[k])
  {
    if k > 0 {
      FindFirst(s[1..], id, k - 1);
    }
  }

  /** The records of `s` whose id is not `id`, in order (`filter` with `id != item.id`). */
  function WithoutId(s: seq<Record>, id: string): (r: seq<Record>)
    ensures |r| <= |s|
    ensures forall x :: x in r <==> x in s && x.item.id != id
    ensures !HasId(r, id)
  {
    if s == [] then []
    else if s[0].item.id != id then
      var t := WithoutId(s[1..], id);
      assert !HasId([s[0]] + t, id) by {
        forall k | 0 <= k < |[s[0]] + t| ensures ([s[0]] + t)[k].item.id != id {
          if k > 0 { assert ([s[0]] + t)[k] in t; }
        }
      }
      [s[0]] + t
    else WithoutId(s[1..], id)
  }

  /** Filtering distributes over concatenation, so the kept records stay in order. */
  lemma {:induction false} WithoutIdAppend(a: seq<Record>, b: seq<Record>, id: string)
    ensures WithoutId(a + b, id) == WithoutId(a, id) + WithoutId(b, id)
  {
    if a == [] {
      assert a + b == b;
    } else {
      assert (a + b)[0] == a[0];
      assert (a + b)[1..] == a[1..] + b;
      WithoutIdAppend(a[1..], b, id);
    }
  }

  /** Removing an id that is not there changes nothing. */
  lemma {:induction false} WithoutAbsentId(s: seq<Record>, id: string)
    requires !HasId(s, id)
    ensures WithoutId(s, id) == s
  {
    if s != [] {
      WithoutAbsentId(s[1..], id);
    }
  }

  /** Uniqueness of a list that starts with `h`. */
  lemma UniqueCons(h: Record, t: seq<Record>)
    ensures IdsUnique([h] + t) <==> IdsUnique(t) && !HasId(t, h.item.id)
  {
    var s := [h] + t;
    if IdsUnique(s) {
      forall i, j | 0 <= i < j < |t| ensures t[i].item.id != t[j].item.id {
        assert s[i + 1] == t[i] && s[j + 1] == t[j];
      }
      forall k | 0 <= k < |t| ensures t[k].item.id != h.item.id {
        assert s[0] == h && s[k + 1] == t[k];
      }
      assert IdsUnique(t) && !HasId(t, h.item.id);
    }
    if IdsUnique(t) && !HasId(t, h.item.id) {
      forall i, j | 0 <= i < j < |s| ensures s[i].item.id != s[j].item.id {
        assert s[j] == t[j - 1];
        if i > 0 { assert s[i] == t[i - 1]; } else { assert s[i] == h; }
      }
      assert IdsUnique(s);
    }
  }

  /** Filtering out an id keeps the remaining ids unique. */
  lemma {:induction false} WithoutIdUnique(s: seq<Record>, id: string)
    requires IdsUnique(s)
    ensures IdsUnique(WithoutId(s, id))
  {
    if s != [] {
      UniqueCons(s[0], s[1..]);
      assert [s[0]] + s[1..] == s;
      WithoutIdUnique(s[1..], id);
      var t := WithoutId(s[1..], id);
      if s[0].item.id != id {
        UniqueCons(s[0], t);
      }
    }
  }

  /** Appending a record with a fresh id keeps the ids unique. */
  lemma AppendFreshUnique(s: seq<Record>, x: Record)
    requires IdsUnique(s) && !HasId(s, x.item.id)
    ensures IdsUnique(s + [x])
  {
  }

  /** Two lists with unique and mutually disjoint ids concatenate to a list with unique ids. */
  lemma ConcatUnique(a: seq<Record>, b: seq<Record>)
    requires IdsUnique(a) && IdsUnique(b) && DisjointIds(a, b)
    ensures IdsUnique(a + b)
  {
  }
}
