/** The expiry filter that `#clean` applies to both lists of records. */
module Expiry {
  import opened FeedTypes
  import opened Records

  /** A record survives cleaning when it has no expiry or expires strictly after `now`. */
  predicate IsLive(now: int, r: Record) {
    r.expireAt.None? || r.expireAt.value > now
  }

  ghost predicate AllLive(now: int, s: seq<Record>) {
    forall r :: r in s ==> IsLive(now, r)
  }

  /** The records of `s` that are live at `now`, in their original order. */
  function Live(now: int, s: seq<Record>): (r: seq<Record>)
    ensures |r| <= |s|
    ensures forall x :: x in r <==> x in s && IsLive(now, x)
  {
    if s == [] then []
    else if IsLive(now, s[0]) then [s[0]] + Live(now, s[1..])
    else Live(now, s[1..])
  }

  /** Filtering distributes over concatenation, so the original order is kept. */
  lemma {:induction false} LiveAppend(now: int, a: seq<Record>, b: seq<Record>)
    ensures Live(now, a + b) == Live(now, a) + Live(now, b)
  {
    if a == [] {
      assert a + b == b;
    } else {
      assert (a + b)[0] == a[0];
      assert (a + b)[1..] == a[1..] + b;
      LiveAppend(now, a[1..], b);
    }
  }

  /** A sequence is left as it is exactly when every record in it is live. */
  lemma {:induction false} LiveIsIdentity(now: int, s: seq<Record>)
    ensures Live(now, s) == s <==> AllLive(now, s)
  {
    if s != [] {
      LiveIsIdentity(now, s[1..]);
      if !IsLive(now, s[0]) {
        assert s[0] !in Live(now, s);
      }
    }
  }

  /** Cleaning twice is the same as cleaning once. */
  lemma CleanIdempotent(now: int, s: seq<Record>)
    ensures Live(now, Live(now, s)) == Live(now, s)
  {
    LiveIsIdentity(now, Live(now, s));
  }

  /** Cleaning keeps ids unique. */
  lemma {:induction false} LiveKeepsUnique(now: int, s: seq<Record>)
    requires IdsUnique(s)
    ensures IdsUnique(Live(now, s))
  {
    if s != [] {
      UniqueCons(s[0], s[1..]);
      assert [s[0]] + s[1..] == s;
      LiveKeepsUnique(now, s[1..]);
      if IsLive(now, s[0]) {
        UniqueCons(s[0], Live(now, s[1..]));
      }
    }
  }
}
