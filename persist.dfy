/**
 * What `toJSON` writes to the key-value store: one `set` per added record,
 * keyed by prefix and id, with a time-to-live derived from its expiry.
 */
module Persist {
  import opened FeedTypes
  import opened Expiry
  import opened Records

  /** A value held by the store, with the time-to-live it was written with. */
  datatype Stored = Stored(value: Record, expireIn: Option<int>)

  /** One `set` mutation of an atomic operation. */
  datatype Mutation = Set(key: Key, value: Record, expireIn: Option<int>)

  /** The key a record is written under: the prefix followed by the item's id. */
  function KeyOf(prefix: Key, r: Record): (k: Key)
    ensures |k| == |prefix| + 1 && k[..|prefix|] == prefix && k[|prefix|] == r.item.id
  {
    prefix + [r.item.id]
  }

  lemma KeyOfInjective(prefix: Key, a: Record, b: Record)
    ensures KeyOf(prefix, a) == KeyOf(prefix, b) <==> a.item.id == b.item.id
  {
  }

  /** Milliseconds from `now` until `expireAt`, when there is an expiry. */
  function ExpireIn(now: int, expireAt: Option<int>): (t: Option<int>)
    ensures t.Some? <==> expireAt.Some?
    ensures t.Some? ==> now + t.value == expireAt.value
  {
    match expireAt
    case None => None
    case Some(at) => Some(at - now)
  }

  /** A live record is written with a positive time-to-live, or none. */
  lemma LiveHasPositiveExpireIn(now: int, r: Record)
    requires IsLive(now, r)
    ensures var t := ExpireIn(now, r.expireAt); t.None? || t.value > 0
  {
  }

  /** The mutations built from the added records, one per record and in their order. */
  function Mutations(prefix: Key, now: int, added: seq<Record>): (ms: seq<Mutation>)
    ensures |ms| == |added|
    ensures forall k :: 0 <= k < |added| ==>
      ms[k] == Set(KeyOf(prefix, added[k]), added[k], ExpireIn(now, added[k].expireAt))
  {
    if added == [] then []
    else [Set(KeyOf(prefix, added[0]), added[0], ExpireIn(now, added[0].expireAt))]
         + Mutations(prefix, now, added[1..])
  }

  /** Committing the mutations in order; a later `set` of a key wins. */
  function Commit(kv: map<Key, Stored>, ms: seq<Mutation>): (kv': map<Key, Stored>)
    ensures forall k :: k in kv ==> k in kv'
    ensures forall k :: k in kv' ==> k in kv || exists j :: 0 <= j < |ms| && ms[j].key == k
    decreases |ms|
  {
    if ms == [] then kv
    else
      var rest := Commit(kv[ms[0].key := Stored(ms[0].value, ms[0].expireIn)], ms[1..]);
      assert forall j :: 0 <= j < |ms[1..]| ==> ms[1..][j] == ms[j + 1];
      rest
  }

  /** A key none of the mutations sets keeps what it held, or stays absent. */
  lemma {:induction false} CommitLeavesOthers(kv: map<Key, Stored>, ms: seq<Mutation>, k: Key)
    requires forall j :: 0 <= j < |ms| ==> ms[j].key != k
    ensures k in Commit(kv, ms) <==> k in kv
    ensures k in kv ==> Commit(kv, ms)[k] == kv[k]
    decreases |ms|
  {
    if ms != [] {
      CommitLeavesOthers(kv[ms[0].key := Stored(ms[0].value, ms[0].expireIn)], ms[1..], k);
    }
  }

  /**
   * With unique ids, committing the mutations of the added records leaves
   * each record at its own key, with its time-to-live.
   */
  lemma {:induction false} CommitWritesEach(kv: map<Key, Stored>, prefix: Key, now: int, added: seq<Record>)
    requires IdsUnique(added)
    ensures forall r :: r in added ==>
      KeyOf(prefix, r) in Commit(kv, Mutations(prefix, now, added))
      && Commit(kv, Mutations(prefix, now, added))[KeyOf(prefix, r)] == Stored(r, ExpireIn(now, r.expireAt))
    decreases |added|
  {
    if added != [] {
      var ms := Mutations(prefix, now, added);
      var h := added[0];
      var kv' := kv[KeyOf(prefix, h) := Stored(h, ExpireIn(now, h.expireAt))];
      assert Commit(kv, ms) == Commit(kv', ms[1..]);
      assert ms[1..] == Mutations(prefix, now, added[1..]);
      assert IdsUnique(added[1..]) by {
        UniqueCons(h, added[1..]);
        assert [h] + added[1..] == added;
      }
      CommitWritesEach(kv', prefix, now, added[1..]);
      forall j | 0 <= j < |ms[1..]| ensures ms[1..][j].key != KeyOf(prefix, h) {
        assert ms[1..][j] == ms[j + 1];
        KeyOfInjective(prefix, added[j + 1], h);
      }
      CommitLeavesOthers(kv', ms[1..], KeyOf(prefix, h));
    }
  }

  /** Keys that belong to no added record are untouched by the commit. */
  lemma CommitKeepsOtherKeys(kv: map<Key, Stored>, prefix: Key, now: int, added: seq<Record>, k: Key)
    requires forall r :: r in added ==> KeyOf(prefix, r) != k
    ensures k in Commit(kv, Mutations(prefix, now, added)) <==> k in kv
    ensures k in kv ==> Commit(kv, Mutations(prefix, now, added))[k] == kv[k]
  {
    var ms := Mutations(prefix, now, added);
    forall j | 0 <= j < |ms| ensures ms[j].key != k {
      assert added[j] in added;
    }
    CommitLeavesOthers(kv, ms, k);
  }
}
