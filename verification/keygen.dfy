/** `getFileName` (src/index.ts:48-59): a truthy caller-supplied name is used
    as it is; otherwise up to ten random candidates are probed with `head`
    and the first one the bucket does not hold is taken. After ten
    collisions the closure falls off its end and yields nothing. */
module KeyGeneration {
  import opened Wrappers
  import opened RandomNames
  import opened ObjectStore
  import opened Http

  const MAX_ATTEMPTS: nat := 10

  /** The name chosen, if any, and the candidates probed with `head`, in order. */
  datatype Resolution = Resolution(name: Option<FormValue>, probes: seq<string>)

  /** The candidate of attempt `attempt`: it consumes the next eight draws. */
  function Candidate(rand: RandomSource, attempt: nat): string {
    RandomFileName(rand, attempt * FILENAME_LENGTH)
  }

  /** The `head` calls a list of probes amounts to. */
  function HeadCalls(probes: seq<string>): (calls: seq<StoreCall>)
    ensures |calls| == |probes|
    ensures forall i :: 0 <= i < |probes| ==> calls[i] == HeadCall(probes[i])
  {
    seq(|probes|, i requires 0 <= i < |probes| => HeadCall(probes[i]))
  }

  /** The retry loop from attempt `attempts` on: probe the next candidate,
      stop at the first free one, give up once the budget is spent. */
  function ProbeFrom(store: Store, rand: RandomSource, attempts: nat): (r: Resolution)
    requires attempts <= MAX_ATTEMPTS
    ensures |r.probes| <= MAX_ATTEMPTS - attempts
    decreases MAX_ATTEMPTS - attempts
  {
    if attempts == MAX_ATTEMPTS then Resolution(None, [])
    else
      var fileName := Candidate(rand, attempts);
      if !Head(store, fileName) then Resolution(Some(TextField(fileName)), [fileName])
      else
        var rest := ProbeFrom(store, rand, attempts + 1);
        Resolution(rest.name, [fileName] + rest.probes)
  }

  /** The retry loop probes the candidates of consecutive attempts, in
      order: the probe of attempt `k` is the candidate of attempt `k`. */
  lemma {:induction false} ProbesAreCandidates(store: Store, rand: RandomSource, attempts: nat)
    requires attempts <= MAX_ATTEMPTS
    ensures var r := ProbeFrom(store, rand, attempts);
            forall k :: attempts <= k < attempts + |r.probes| ==> r.probes[k - attempts] == Candidate(rand, k)
    decreases MAX_ATTEMPTS - attempts
  {
    if attempts < MAX_ATTEMPTS && Candidate(rand, attempts) in store {
      ProbesAreCandidates(store, rand, attempts + 1);
      var rest := ProbeFrom(store, rand, attempts + 1).probes;
      var probes := ProbeFrom(store, rand, attempts).probes;
      assert probes == [Candidate(rand, attempts)] + rest;
      forall k | attempts < k < attempts + |probes|
        ensures probes[k - attempts] == Candidate(rand, k)
      {
        assert probes[k - attempts] == rest[k - (attempts + 1)];
      }
    }
  }

  /** How the retry loop ends: every probe but a successful last one hit an
      existing key; success means the last probe found its key free and is
      the name returned; failure means the budget ran out with every probe
      taken. */
  lemma {:induction false} ProbeOutcome(store: Store, rand: RandomSource, attempts: nat)
    requires attempts <= MAX_ATTEMPTS
    ensures var r := ProbeFrom(store, rand, attempts);
            r.name.None? ==>
              |r.probes| == MAX_ATTEMPTS - attempts
              && forall i :: 0 <= i < |r.probes| ==> r.probes[i] in store
    ensures var r := ProbeFrom(store, rand, attempts);
            r.name.Some? ==>
              && |r.probes| >= 1
              && r.name.value == TextField(r.probes[|r.probes| - 1])
              && r.probes[|r.probes| - 1] !in store
              && forall i :: 0 <= i < |r.probes| - 1 ==> r.probes[i] in store
    decreases MAX_ATTEMPTS - attempts
  {
    if attempts < MAX_ATTEMPTS && Candidate(rand, attempts) in store {
      ProbeOutcome(store, rand, attempts + 1);
      var rest := ProbeFrom(store, rand, attempts + 1);
      var r := ProbeFrom(store, rand, attempts);
      assert r == Resolution(rest.name, [Candidate(rand, attempts)] + rest.probes);
      forall i | 1 <= i < |r.probes|
        ensures r.probes[i] == rest.probes[i - 1]
      {
      }
    }
  }

  /** The key generator. A truthy supplied name comes back verbatim with no
      probe. Otherwise at most ten candidates are probed, in draw order, and
      the result is the first free one; no name comes back exactly when all
      ten candidates are taken. */
  function GetFileName(store: Store, supplied: Option<FormValue>, rand: RandomSource): (r: Resolution)
    ensures Truthy(supplied) ==> r == Resolution(supplied, [])
    ensures !Truthy(supplied) ==>
              && |r.probes| <= MAX_ATTEMPTS
              && (forall i :: 0 <= i < |r.probes| ==> r.probes[i] == Candidate(rand, i))
              && (r.name.None? <==> forall i :: 0 <= i < MAX_ATTEMPTS ==> Candidate(rand, i) in store)
    ensures !Truthy(supplied) && r.name.Some? ==>
              && |r.probes| >= 1
              && r.name.value == TextField(r.probes[|r.probes| - 1])
              && r.probes[|r.probes| - 1] !in store
              && forall i :: 0 <= i < |r.probes| - 1 ==> r.probes[i] in store
    ensures !Truthy(supplied) && r.name.None? ==> |r.probes| == MAX_ATTEMPTS
  {
    if Truthy(supplied) then Resolution(supplied, [])
    else
      ProbesAreCandidates(store, rand, 0);
      ProbeOutcome(store, rand, 0);
      var r := ProbeFrom(store, rand, 0);
      assert forall i :: 0 <= i < |r.probes| ==> r.probes[i] == r.probes[i - 0];
      assert r.name.Some? ==> Candidate(rand, |r.probes| - 1) !in store;
      r
  }

  /** One round of the retry loop: the run from attempt 0 either stops at
      this attempt's candidate, when it is free, or continues from the next. */
  lemma ProbeStep(store: Store, rand: RandomSource, attempts: nat, probes: seq<string>)
    requires attempts < MAX_ATTEMPTS
    requires var here := ProbeFrom(store, rand, attempts);
             ProbeFrom(store, rand, 0) == Resolution(here.name, probes + here.probes)
    ensures var c := Candidate(rand, attempts);
            c !in store ==> ProbeFrom(store, rand, 0) == Resolution(Some(TextField(c)), probes + [c])
    ensures var c := Candidate(rand, attempts);
            var next := ProbeFrom(store, rand, attempts + 1);
            c in store ==> ProbeFrom(store, rand, 0) == Resolution(next.name, (probes + [c]) + next.probes)
  {
    var c := Candidate(rand, attempts);
    var next := ProbeFrom(store, rand, attempts + 1);
    if c in store {
      assert ProbeFrom(store, rand, attempts).probes == [c] + next.probes;
      assert probes + ([c] + next.probes) == (probes + [c]) + next.probes;
    }
  }

  /** The source's `while (attempts < 10)` loop, probing one fresh candidate
      per round; it makes exactly the probes GetFileName describes. */
  method ResolveFileName(store: Store, supplied: Option<FormValue>, rand: RandomSource)
    returns (name: Option<FormValue>, probes: seq<string>)
    ensures Resolution(name, probes) == GetFileName(store, supplied, rand)
  {
    if Truthy(supplied) {
      return supplied, [];
    }
    var attempts := 0;
    probes := [];
    while attempts < MAX_ATTEMPTS
      invariant 0 <= attempts <= MAX_ATTEMPTS
      invariant var rest := ProbeFrom(store, rand, attempts);
                ProbeFrom(store, rand, 0) == Resolution(rest.name, probes + rest.probes)
    {
      var fileName := GenerateRandomFileName(rand, attempts * FILENAME_LENGTH);
      ProbeStep(store, rand, attempts, probes);
      probes := probes + [fileName];
      if !Head(store, fileName) {
        return Some(TextField(fileName)), probes;
      }
      attempts := attempts + 1;
    }
    return None, probes;
  }
}
