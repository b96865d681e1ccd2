/**
 * The per-item decision `add` makes in its loop, and the batch of such
 * decisions one call to `add` performs.
 */
module Reconcile {
  import opened FeedTypes
  import opened Expiry
  import opened Records

  /** The errors `add` throws, each naming the offending item id. */
  datatype AddError =
    | AlreadyAdded(id: string)          // an item with this id was already added to this instance
    | ExpiryNotInFuture(id: string)     // `expireAt` is at or before the instance's current date
    | AlreadyDated(id: string)          // approximation asked for an item that has a date
    | ApproximationDiffers(id: string)  // the cached record's flag differs from the incoming one

  /** The two in-memory lists of the aggregator. */
  datatype State = State(cached: seq<Record>, added: seq<Record>)

  datatype StepResult = Throw(error: AddError) | Next(state: State)

  /** The result of one call: the lists it leaves behind and the error it threw, if any. */
  datatype Outcome = Outcome(state: State, error: Option<AddError>)

  /** A new item stamped with the current date as its publish date. */
  function Stamped(item: Item, now: Instant): (stamped: Item)
    ensures stamped.datePublished == Some(now.iso)
    ensures stamped.(datePublished := item.datePublished) == item
  {
    item.(datePublished := Some(now.iso))
  }

  /** A replacing item that keeps the cached publish date and is modified now. */
  function Merged(item: Item, cached: Item, now: Instant): (merged: Item)
    ensures merged.datePublished == cached.datePublished && merged.dateModified == Some(now.iso)
    ensures merged.id == item.id && merged.rest == item.rest
  {
    item.(datePublished := cached.datePublished, dateModified := Some(now.iso))
  }

  /** The two items are equal once their publish dates are set aside. */
  predicate SameButPublished(a: Item, b: Item)
    ensures SameButPublished(a, b) <==> a.id == b.id && a.dateModified == b.dateModified && a.rest == b.rest
  {
    a.(datePublished := None) == b.(datePublished := None)
  }

  /**
   * What one iteration of the loop in `add` does with the candidate `r`.
   * The deep comparison of the cached record with the bare payload that the
   * loop makes first never holds (a record and an item have different
   * fields), so that branch is left out.
   */
  function Step(now: Instant, st: State, r: Record): (out: StepResult)
    ensures out.Throw? ==> out.error.id == r.item.id
    ensures out.Next? ==> forall c :: c in out.state.cached ==> c in st.cached
    ensures out.Next? && out.state != st ==>
      |out.state.added| == |st.added| + 1 && out.state.added[..|st.added|] == st.added
      && out.state.added[|st.added|].item.id == r.item.id
      && out.state.added[|st.added|].expireAt == r.expireAt
      && out.state.added[|st.added|].shouldApproximateDate == r.shouldApproximateDate
  {
    var id := r.item.id;
    var approximate := IsOn(r.shouldApproximateDate);
    if HasId(st.added, id) then Throw(AlreadyAdded(id))
    else if r.expireAt.Some? && r.expireAt.value <= now.ms then Throw(ExpiryNotInFuture(id))
    else if approximate && (HasDate(r.item.datePublished) || HasDate(r.item.dateModified)) then
      Throw(AlreadyDated(id))
    else
      match Find(st.cached, id)
      case None =>
        var item := if approximate then Stamped(r.item, now) else r.item;
        Next(State(st.cached, st.added + [Record(item, r.expireAt, r.shouldApproximateDate)]))
      case Some(existing) =>
        if r.shouldApproximateDate != existing.shouldApproximateDate then Throw(ApproximationDiffers(id))
        else if approximate && SameButPublished(r.item, existing.item) then Next(st)
        else
          var item := if approximate then Merged(r.item, existing.item, now) else r.item;
          Next(State(WithoutId(st.cached, id), st.added + [Record(item, r.expireAt, r.shouldApproximateDate)]))
  }

  /** The whole loop: candidates are taken in order until one throws. */
  function Batch(now: Instant, st: State, items: seq<Record>): (out: Outcome)
    ensures st.added <= out.state.added && |out.state.added| <= |st.added| + |items|
    ensures forall c :: c in out.state.cached ==> c in st.cached
    decreases |items|
  {
    if items == [] then Outcome(st, None)
    else
      match Step(now, st, items[0])
      case Throw(e) => Outcome(st, Some(e))
      case Next(st') => Batch(now, st', items[1..])
  }

  /**
   * What always holds of the lists once cleaned: ids unique among the added
   * records and never shared with a cached one, and every record live.
   */
  ghost predicate Consistent(now: int, st: State) {
    IdsUnique(st.added) && DisjointIds(st.cached, st.added)
    && AllLive(now, st.cached) && AllLive(now, st.added)
  }

  // ---------------------------------------------------------------------
  // The errors

  lemma StepThrows(now: Instant, st: State, r: Record)
    ensures Step(now, st, r) == Throw(AlreadyAdded(r.item.id)) <==> HasId(st.added, r.item.id)
    ensures Step(now, st, r) == Throw(ExpiryNotInFuture(r.item.id)) <==>
      !HasId(st.added, r.item.id) && r.expireAt.Some? && r.expireAt.value <= now.ms
    ensures Step(now, st, r) == Throw(AlreadyDated(r.item.id)) <==>
      !HasId(st.added, r.item.id) && !(r.expireAt.Some? && r.expireAt.value <= now.ms)
      && IsOn(r.shouldApproximateDate) && (HasDate(r.item.datePublished) || HasDate(r.item.dateModified))
    ensures Step(now, st, r) == Throw(ApproximationDiffers(r.item.id)) <==>
      !HasId(st.added, r.item.id) && !(r.expireAt.Some? && r.expireAt.value <= now.ms)
      && !(IsOn(r.shouldApproximateDate) && (HasDate(r.item.datePublished) || HasDate(r.item.dateModified)))
      && HasId(st.cached, r.item.id)
      && Find(st.cached, r.item.id).value.shouldApproximateDate != r.shouldApproximateDate
    ensures Step(now, st, r).Throw? ==> Step(now, st, r).error.id == r.item.id
  {
  }

  // ---------------------------------------------------------------------
  // The outcomes that do not throw

  /** A new id is appended; with approximation on, stamped with the current date and otherwise unchanged. */
  lemma NewIdAppended(now: Instant, st: State, r: Record)
    requires !HasId(st.added, r.item.id) && !HasId(st.cached, r.item.id)
    requires r.expireAt.None? || r.expireAt.value > now.ms
    requires IsOn(r.shouldApproximateDate) ==> !HasDate(r.item.datePublished) && !HasDate(r.item.dateModified)
    ensures Step(now, st, r).Next?
    ensures var st' := Step(now, st, r).state;
      st'.cached == st.cached && |st'.added| == |st.added| + 1 && st'.added[..|st.added|] == st.added
    ensures var x := Step(now, st, r).state.added[|st.added|];
      x.expireAt == r.expireAt && x.shouldApproximateDate == r.shouldApproximateDate
      && x.item.id == r.item.id && x.item.dateModified == r.item.dateModified && x.item.rest == r.item.rest
      && x.item.datePublished == (if IsOn(r.shouldApproximateDate) then Some(now.iso) else r.item.datePublished)
  {
  }

  /**
   * With approximation on and a cached record of the same id whose item
   * differs only in its publish date, nothing changes.
   */
  lemma ApproximatedSameIsSkipped(now: Instant, st: State, r: Record, existing: Record)
    requires !HasId(st.added, r.item.id)
    requires r.expireAt.None? || r.expireAt.value > now.ms
    requires IsOn(r.shouldApproximateDate) && !HasDate(r.item.datePublished) && !HasDate(r.item.dateModified)
    requires Find(st.cached, r.item.id) == Some(existing)
    requires existing.shouldApproximateDate == r.shouldApproximateDate
    requires SameButPublished(r.item, existing.item)
    ensures Step(now, st, r) == Next(st)
  {
  }

  /**
   * A cached record of the same id whose item differs otherwise is dropped
   * (every record with that id is), and the incoming one is appended; with
   * approximation on it keeps the cached publish date and is modified now.
   */
  lemma ChangedReplacesCached(now: Instant, st: State, r: Record, existing: Record)
    requires !HasId(st.added, r.item.id)
    requires r.expireAt.None? || r.expireAt.value > now.ms
    requires IsOn(r.shouldApproximateDate) ==> !HasDate(r.item.datePublished) && !HasDate(r.item.dateModified)
    requires Find(st.cached, r.item.id) == Some(existing)
    requires existing.shouldApproximateDate == r.shouldApproximateDate
    requires IsOn(r.shouldApproximateDate) ==> !SameButPublished(r.item, existing.item)
    ensures Step(now, st, r).Next?
    ensures var st' := Step(now, st, r).state;
      !HasId(st'.cached, r.item.id)
      && (forall c :: c in st'.cached <==> c in st.cached && c.item.id != r.item.id)
      && |st'.added| == |st.added| + 1 && st'.added[..|st.added|] == st.added
    ensures var x := Step(now, st, r).state.added[|st.added|];
      x.expireAt == r.expireAt && x.shouldApproximateDate == r.shouldApproximateDate
      && x.item == (if IsOn(r.shouldApproximateDate)
                    then r.item.(datePublished := existing.item.datePublished, dateModified := Some(now.iso))
                    else r.item)
  {
  }

  /**
   * Re-adding, without approximation, a record identical to the cached one
   * still moves it from the cached list to the added list: the equality test
   * in the source compares a record with a bare item and never holds.
   */
  lemma IdenticalReAddIsReplaced(now: Instant, st: State, r: Record)
    requires !HasId(st.added, r.item.id)
    requires r.expireAt.None? || r.expireAt.value > now.ms
    requires !IsOn(r.shouldApproximateDate)
    requires Find(st.cached, r.item.id) == Some(r)
    ensures Step(now, st, r) == Next(State(WithoutId(st.cached, r.item.id), st.added + [r]))
  {
  }

  // ---------------------------------------------------------------------
  // What a step and a batch preserve

  /** A step only ever appends to the added list, one record at a time. */
  lemma StepAppendsOnly(now: Instant, st: State, r: Record)
    requires Step(now, st, r).Next?
    ensures var st' := Step(now, st, r).state;
      st.added <= st'.added && |st'.added| <= |st.added| + 1
  {
  }

  /** A step keeps the lists consistent, and keeps cached ids unique when they were. */
  lemma {:induction false} StepKeepsConsistent(now: Instant, st: State, r: Record)
    requires Consistent(now.ms, st)
    requires Step(now, st, r).Next?
    ensures Consistent(now.ms, Step(now, st, r).state)
    ensures IdsUnique(st.cached) ==> IdsUnique(Step(now, st, r).state.cached)
  {
    var st' := Step(now, st, r).state;
    var id := r.item.id;
    if st' != st {
      var x := st'.added[|st.added|];
      assert st'.added == st.added + [x];
      assert x.item.id == id && x.expireAt == r.expireAt;
      AppendFreshUnique(st.added, x);
      assert DisjointIds(st'.cached, st'.added);
      if IdsUnique(st.cached) && HasId(st.cached, id) {
        WithoutIdUnique(st.cached, id);
      }
    }
  }

  /** A batch keeps the lists consistent, and keeps cached ids unique when they were. */
  lemma {:induction false} BatchKeepsConsistent(now: Instant, st: State, items: seq<Record>)
    requires Consistent(now.ms, st)
    ensures Consistent(now.ms, Batch(now, st, items).state)
    ensures IdsUnique(st.cached) ==> IdsUnique(Batch(now, st, items).state.cached)
    ensures st.added <= Batch(now, st, items).state.added
    decreases |items|
  {
    if items != [] && Step(now, st, items[0]).Next? {
      StepKeepsConsistent(now, st, items[0]);
      StepAppendsOnly(now, st, items[0]);
      BatchKeepsConsistent(now, Step(now, st, items[0]).state, items[1..]);
    }
  }

  /**
   * A batch that throws leaves exactly the lists built by the candidates
   * before the one that threw: what was appended stays.
   */
  lemma {:induction false} BatchStopsAtThrow(now: Instant, st: State, items: seq<Record>)
    requires Batch(now, st, items).error.Some?
    ensures exists k :: (0 <= k < |items|
      && Batch(now, st, items[..k]) == Outcome(Batch(now, st, items).state, None)
      && Step(now, Batch(now, st, items).state, items[k]) == Throw(Batch(now, st, items).error.value))
    decreases |items|
  {
    assert items[..0] == [];
    if Step(now, st, items[0]).Next? {
      var st' := Step(now, st, items[0]).state;
      var rest := items[1..];
      BatchStopsAtThrow(now, st', rest);
      var k :| 0 <= k < |rest|
        && Batch(now, st', rest[..k]) == Outcome(Batch(now, st', rest).state, None)
        && Step(now, Batch(now, st', rest).state, rest[k]) == Throw(Batch(now, st', rest).error.value);
      assert items[..k + 1][0] == items[0] && items[..k + 1][1..] == rest[..k];
      assert items[k + 1] == rest[k];
    }
  }

  /** A candidate whose id is already among the added records makes the batch throw. */
  lemma {:induction false} BatchRejectsAddedId(now: Instant, st: State, items: seq<Record>, k: nat)
    requires k < |items| && HasId(st.added, items[k].item.id)
    ensures Batch(now, st, items).error.Some?
    decreases |items|
  {
    if Step(now, st, items[0]).Next? {
      var st' := Step(now, st, items[0]).state;
      StepAppendsOnly(now, st, items[0]);
      var j :| 0 <= j < |st.added| && st.added[j].item.id == items[k].item.id;
      assert st'.added[j] == st.added[j];
      BatchRejectsAddedId(now, st', items[1..], k - 1);
    }
  }

  /**
   * The candidate is rejected whatever the lists hold: its expiry is not in
   * the future, or approximation is asked for an item that has a date.
   */
  predicate Invalid(now: Instant, r: Record) {
    (r.expireAt.Some? && r.expireAt.value <= now.ms)
    || (IsOn(r.shouldApproximateDate) && (HasDate(r.item.datePublished) || HasDate(r.item.dateModified)))
  }

  /** An invalid candidate anywhere in a batch makes the batch throw. */
  lemma {:induction false} BatchRejectsInvalid(now: Instant, st: State, items: seq<Record>, k: nat)
    requires k < |items| && Invalid(now, items[k])
    ensures Batch(now, st, items).error.Some?
    decreases |items|
  {
    if k > 0 && Step(now, st, items[0]).Next? {
      assert items[1..][k - 1] == items[k];
      BatchRejectsInvalid(now, Step(now, st, items[0]).state, items[1..], k - 1);
    }
  }

  /** The candidate at `k` throws on the lists the candidates before it built. */
  predicate ThrowsAt(now: Instant, st: State, items: seq<Record>, k: nat) {
    k < |items| && Batch(now, st, items[..k]).error.None?
    && Step(now, Batch(now, st, items[..k]).state, items[k]).Throw?
  }

  /**
   * A candidate that throws on the lists it meets makes the batch throw; this
   * covers an approximation flag differing from the cached record's.
   */
  lemma {:induction false} BatchRejectsThrowAt(now: Instant, st: State, items: seq<Record>, k: nat)
    requires ThrowsAt(now, st, items, k)
    ensures Batch(now, st, items).error.Some?
    decreases k
  {
    if k == 0 {
      assert items[..0] == [];
    } else {
      assert items[..k][0] == items[0] && items[..k][1..] == items[1..][..k - 1];
      assert items[1..][k - 1] == items[k];
      BatchRejectsThrowAt(now, Step(now, st, items[0]).state, items[1..], k - 1);
    }
  }

  /** Every candidate that throws on the lists it meets makes the batch throw. */
  lemma BatchRejectsThrows(now: Instant, st: State, items: seq<Record>)
    ensures forall k: nat :: ThrowsAt(now, st, items, k) ==> Batch(now, st, items).error.Some?
    ensures forall k :: 0 <= k < |items| && Invalid(now, items[k]) ==> Batch(now, st, items).error.Some?
  {
    forall k: nat | ThrowsAt(now, st, items, k) ensures Batch(now, st, items).error.Some? {
      BatchRejectsThrowAt(now, st, items, k);
    }
    forall k | 0 <= k < |items| && Invalid(now, items[k]) ensures Batch(now, st, items).error.Some? {
      BatchRejectsInvalid(now, st, items, k);
    }
  }

  /**
   * A candidate whose id was appended by an earlier candidate of the same
   * batch makes the batch throw.
   */
  lemma {:induction false} BatchRejectsRepeat(now: Instant, st: State, items: seq<Record>, j: nat)
    requires j < |items|
    requires Batch(now, st, items[..j]).error.None?
    requires HasId(Batch(now, st, items[..j]).state.added, items[j].item.id)
    ensures Batch(now, st, items).error.Some?
    decreases j
  {
    if j == 0 {
      assert items[..0] == [];
    } else {
      assert items[..j][0] == items[0] && items[..j][1..] == items[1..][..j - 1];
      var st' := Step(now, st, items[0]).state;
      assert items[1..][j - 1] == items[j];
      BatchRejectsRepeat(now, st', items[1..], j - 1);
    }
  }

  /** The candidate at `j` repeats an id that the candidates before it appended without throwing. */
  predicate RepeatsAppended(now: Instant, st: State, items: seq<Record>, j: nat) {
    j < |items| && Batch(now, st, items[..j]).error.None?
    && HasId(Batch(now, st, items[..j]).state.added, items[j].item.id)
  }

  /** Every such repeat makes the batch throw. */
  lemma BatchRejectsRepeats(now: Instant, st: State, items: seq<Record>)
    ensures forall j: nat :: RepeatsAppended(now, st, items, j) ==> Batch(now, st, items).error.Some?
  {
    forall j: nat | RepeatsAppended(now, st, items, j) ensures Batch(now, st, items).error.Some? {
      BatchRejectsRepeat(now, st, items, j);
    }
  }

  /**
   * A repeat whose first copy was skipped as matching the cached record is
   * skipped again and does not throw.
   */
  lemma SkippedRepeatDoesNotThrow(now: Instant, st: State, r: Record, existing: Record)
    requires !HasId(st.added, r.item.id)
    requires r.expireAt.None? || r.expireAt.value > now.ms
    requires IsOn(r.shouldApproximateDate) && !HasDate(r.item.datePublished) && !HasDate(r.item.dateModified)
    requires Find(st.cached, r.item.id) == Some(existing)
    requires existing.shouldApproximateDate == r.shouldApproximateDate
    requires SameButPublished(r.item, existing.item)
    ensures Batch(now, st, [r, r]) == Outcome(st, None)
  {
    ApproximatedSameIsSkipped(now, st, r, existing);
    assert [r, r][1..] == [r] && [r][1..] == [];
    assert Batch(now, st, [r]) == Batch(now, st, []);
    assert Batch(now, st, [r, r]) == Batch(now, st, [r]);
  }

  /** The id is held by some cached or added record. */
  predicate Present(st: State, id: string) {
    HasId(st.cached, id) || HasId(st.added, id)
  }

  /** After a step that does not throw, the candidate's id is present and no id present before is lost. */
  lemma StepKeepsPresent(now: Instant, st: State, r: Record, id: string)
    requires Step(now, st, r).Next?
    ensures Present(Step(now, st, r).state, r.item.id)
    ensures Present(st, id) ==> Present(Step(now, st, r).state, id)
  {
  }

  /** No id present before a batch that does not throw is lost by it. */
  lemma {:induction false} BatchKeepsPresent(now: Instant, st: State, items: seq<Record>, id: string)
    requires Batch(now, st, items).error.None?
    requires Present(st, id)
    ensures Present(Batch(now, st, items).state, id)
    decreases |items|
  {
    if items != [] {
      StepKeepsPresent(now, st, items[0], id);
      BatchKeepsPresent(now, Step(now, st, items[0]).state, items[1..], id);
    }
  }

  /** After a batch that does not throw, every candidate's id is present. */
  lemma {:induction false} BatchCoversIds(now: Instant, st: State, items: seq<Record>)
    requires Batch(now, st, items).error.None?
    ensures forall k :: 0 <= k < |items| ==> Present(Batch(now, st, items).state, items[k].item.id)
    decreases |items|
  {
    if items != [] {
      var st' := Step(now, st, items[0]).state;
      StepKeepsPresent(now, st, items[0], items[0].item.id);
      BatchKeepsPresent(now, st', items[1..], items[0].item.id);
      BatchCoversIds(now, st', items[1..]);
      forall k | 1 <= k < |items| ensures Present(Batch(now, st, items).state, items[k].item.id) {
        assert items[k] == items[1..][k - 1];
      }
    }
  }
}
