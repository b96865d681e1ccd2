/** The aggregator object: two lists of records, the store, and the fixed current date. */
module Aggregator {
  import opened FeedTypes
  import opened Expiry
  import opened Records
  import opened Reconcile
  import opened Persist

  class FeedAggregator {
    var initialized: bool
    /** The key-value store's contents, seen as a map. */
    var kv: map<Key, Stored>
    const prefix: Key
    const now: Instant
    var cached: seq<Record>
    var added: seq<Record>
    /** How many times the records were loaded from the store. */
    ghost var loads: nat

    ghost predicate Valid()
      reads this
    {
      loads == (if initialized then 1 else 0)
      && (!initialized ==> cached == [] && added == [])
      && Consistent(now.ms, State(cached, added))
    }

    /** The instance over a store, a key prefix and a current date. */
    constructor (kv: map<Key, Stored>, prefix: Key, now: Instant)
      ensures Valid()
      ensures this.kv == kv && this.prefix == prefix && this.now == now
      ensures !initialized && cached == [] && added == []
    {
      this.kv := kv;
      this.prefix := prefix;
      this.now := now;
      initialized := false;
      cached := [];
      added := [];
      loads := 0;
    }

    /** `#clean`: hide both lists' records that have expired by the current date. */
    method Clean()
      modifies this`cached, this`added
      ensures cached == Live(now.ms, old(cached)) && added == Live(now.ms, old(added))
    {
      cached := Live(now.ms, cached);
      added := Live(now.ms, added);
    }

    /**
     * `#init`: the cached records become what listing the prefix returned.
     * The listing is a parameter: the store streams it in batches that need
     * not agree with each other, so it is not tied to `kv`.
     */
    method Init(listed: seq<Record>)
      requires !initialized
      modifies this`cached, this`loads
      ensures cached == listed && loads == old(loads) + 1
    {
      cached := listed;
      loads := loads + 1;
    }

    /** The prelude of `add` and `toJSON`: load once, then clean. */
    method Prepare(listed: seq<Record>)
      requires Valid()
      modifies this`cached, this`added, this`initialized, this`loads
      ensures Valid() && initialized
      ensures old(initialized) ==> loads == old(loads)
      ensures cached == Live(now.ms, if old(initialized) then old(cached) else listed)
      ensures added == old(added)
    {
      if !initialized {
        Init(listed);
        initialized := true;
      }
      Clean();
      LiveIsIdentity(now.ms, old(added));
      assert DisjointIds(cached, added) by {
        if old(initialized) {
          assert forall c :: c in cached ==> c in old(cached);
        }
      }
    }

    /**
     * `add`: reconcile each candidate with the lists, in order, stopping at
     * the first that throws; the records appended before it stay.
     */
    method Add(items: seq<Record>, listed: seq<Record>) returns (error: Option<AddError>)
      requires Valid()
      modifies this`cached, this`added, this`initialized, this`loads
      ensures Valid() && initialized
      ensures old(added) <= added
      ensures Outcome(State(cached, added), error)
           == Batch(now, State(Live(now.ms, if old(initialized) then old(cached) else listed), old(added)), items)
      ensures (if old(initialized) then IdsUnique(old(cached)) else IdsUnique(listed)) ==> IdsUnique(cached + added)
      ensures error.None? ==> forall k :: 0 <= k < |items| ==> Present(State(cached, added), items[k].item.id)
      ensures forall k :: 0 <= k < |items| && HasId(old(added), items[k].item.id) ==> error.Some?
      ensures var start := State(Live(now.ms, if old(initialized) then old(cached) else listed), old(added));
        forall j: nat :: RepeatsAppended(now, start, items, j) ==> error.Some?
      ensures var start := State(Live(now.ms, if old(initialized) then old(cached) else listed), old(added));
        forall k: nat :: ThrowsAt(now, start, items, k) ==> error.Some?
      ensures forall k :: 0 <= k < |items| && Invalid(now, items[k]) ==> error.Some?
    {
      Prepare(listed);
      ghost var start := State(cached, added);
      ghost var uniqueStart := IdsUnique(cached);
      if old(initialized) {
        if IdsUnique(old(cached)) { LiveKeepsUnique(now.ms, old(cached)); }
      } else if IdsUnique(listed) {
        LiveKeepsUnique(now.ms, listed);
      }
      BatchKeepsConsistent(now, start, items);
      ghost var outcome := Batch(now, start, items);
      if outcome.error.None? {
        BatchCoversIds(now, start, items);
      }
      forall k | 0 <= k < |items| && HasId(start.added, items[k].item.id) ensures outcome.error.Some? {
        BatchRejectsAddedId(now, start, items, k);
      }
      BatchRejectsRepeats(now, start, items);
      BatchRejectsThrows(now, start, items);
      if uniqueStart {
        ConcatUnique(outcome.state.cached, outcome.state.added);
      }
      for i := 0 to |items|
        invariant Batch(now, State(cached, added), items[i..]) == outcome
        invariant initialized && Valid()
      {
        assert items[i..][0] == items[i] && items[i..][1..] == items[i + 1..];
        error := AddOne(items[i]);
        if error.Some? {
          return;
        }
      }
      error := None;
    }

    /**
     * One iteration of the loop in `add`. Where the loop moves on to the
     * next candidate without appending, this returns no error and changes
     * nothing.
     */
    method AddOne(r: Record) returns (error: Option<AddError>)
      requires Valid() && initialized
      modifies this`cached, this`added
      ensures Valid()
      ensures Step(now, State(old(cached), old(added)), r)
           == if error.Some? then Throw(error.value) else Next(State(cached, added))
      ensures error.Some? ==> cached == old(cached) && added == old(added)
    {
      ghost var before := State(cached, added);
      // a copy of the candidate's item: the caller's value is never changed
      var item := r.item;
      if HasId(added, item.id) {
        return Some(AlreadyAdded(item.id));
      }
      if r.expireAt.Some? && r.expireAt.value <= now.ms {
        return Some(ExpiryNotInFuture(item.id));
      }
      if IsOn(r.shouldApproximateDate) && (HasDate(item.datePublished) || HasDate(item.dateModified)) {
        return Some(AlreadyDated(item.id));
      }
      var existing := Find(cached, item.id);
      if existing.Some? {
        if r.shouldApproximateDate != existing.value.shouldApproximateDate {
          return Some(ApproximationDiffers(item.id));
        }
        // the deep comparison of the whole cached record with the bare item
        // that comes first here never holds, so it never skips
        if IsOn(r.shouldApproximateDate) {
          if item.(datePublished := None) == existing.value.item.(datePublished := None) {
            return None;
          }
          item := item.(datePublished := existing.value.item.datePublished);
          item := item.(dateModified := Some(now.iso));
        }
        cached := WithoutId(cached, item.id);
      } else if IsOn(r.shouldApproximateDate) {
        item := item.(datePublished := Some(now.iso));
      }
      added := added + [Record(item, r.expireAt, r.shouldApproximateDate)];
      StepKeepsConsistent(now, before, r);
      return None;
    }

    /**
     * `toJSON`: write every added record to the store under its key, then
     * emit the cached items followed by the added ones.
     */
    method ToJson(listed: seq<Record>) returns (feed: seq<Item>)
      requires Valid()
      modifies this
      ensures Valid() && initialized
      ensures added == old(added)
      ensures cached == Live(now.ms, if old(initialized) then old(cached) else listed)
      ensures kv == if |added| > 0 then Commit(old(kv), Mutations(prefix, now.ms, added)) else old(kv)
      ensures forall r :: r in added ==>
        KeyOf(prefix, r) in kv && kv[KeyOf(prefix, r)] == Stored(r, ExpireIn(now.ms, r.expireAt))
      ensures forall r :: r in added ==> ExpireIn(now.ms, r.expireAt).None? || ExpireIn(now.ms, r.expireAt).value > 0
      ensures feed == Payloads(cached) + Payloads(added)
    {
      Prepare(listed);
      if |added| > 0 {
        kv := Commit(kv, Mutations(prefix, now.ms, added));
        CommitWritesEach(old(kv), prefix, now.ms, added);
      }
      forall r | r in added ensures ExpireIn(now.ms, r.expireAt).None? || ExpireIn(now.ms, r.expireAt).value > 0 {
        LiveHasPositiveExpireIn(now.ms, r);
      }
      feed := Payloads(cached) + Payloads(added);
    }
  }

  /** The items of the records, in order: what the feed receives. */
  function Payloads(s: seq<Record>): (items: seq<Item>)
    ensures |items| == |s| && forall k :: 0 <= k < |s| ==> items[k] == s[k].item
  {
    if s == [] then [] else [s[0].item] + Payloads(s[1..])
  }
}
