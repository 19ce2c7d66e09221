/**
 The cache of identity-provider keys, with the suspension while keys are fetched, and the
 two passes that look for a key under which an ID token decodes.
 */
module JwksCache {
  import opened Prelude

  type Issuer = string
  type Key = string

  datatype Entry = Entry(fetchedAt: real, keys: seq<Key>)

  const JWKS_TTL := 3600.0

  function Lookup(entries: map<Issuer, Entry>, issuer: Issuer, now: real): Option<seq<Key>> {
    if issuer in entries && now - entries[issuer].fetchedAt < JWKS_TTL then Some(entries[issuer].keys) else None
  }

  function Remembered(entries: map<Issuer, Entry>, issuer: Issuer, start: real, keys: seq<Key>): map<Issuer, Entry> {
    entries[issuer := Entry(start, keys)]
  }

  function Forgotten(entries: map<Issuer, Entry>, issuer: Issuer): map<Issuer, Entry> {
    entries - {issuer}
  }

  /** Nobody who asks about another issuer can tell the two caches apart. */
  ghost predicate OthersUnaffected(before: map<Issuer, Entry>, after: map<Issuer, Entry>, issuer: Issuer) {
    forall other, now :: other != issuer ==> Lookup(after, other, now) == Lookup(before, other, now)
  }

  // ---------------------------------------------------------------------
  // Coroutines fetching keys
  // ---------------------------------------------------------------------

  type TaskId = nat

  /** A call of get_jwks suspended in its fetch; `start` is the clock it read on entry. */
  datatype Task = Fetching(issuer: Issuer, start: real) | Done

  datatype Fetch = Fetch(issuer: Issuer, keys: seq<Key>, started: real, finished: real)

  datatype Served = Served(issuer: Issuer, keys: seq<Key>, at: real)

  /** `fetches` and `hits` record what has happened: completed fetches, and answers given from the cache. */
  datatype System = System(
    entries: map<Issuer, Entry>, tasks: map<TaskId, Task>, fetches: seq<Fetch>, hits: seq<Served>)

  datatype Step =
    | Get(task: TaskId, issuer: Issuer, now: real)
    | FetchReturns(task: TaskId, keys: seq<Key>, now: real)
    | FetchFails(task: TaskId, now: real)
    | Invalidate(issuer: Issuer, now: real)

  function Next(s: System, step: Step): System {
    match step
    case Get(task, issuer, now) =>
      if task in s.tasks then s else
        var cached := Lookup(s.entries, issuer, now);
        if cached.Some? then
          s.(tasks := s.tasks[task := Done], hits := s.hits + [Served(issuer, cached.value, now)])
        else s.(tasks := s.tasks[task := Fetching(issuer, now)])
    case FetchReturns(task, keys, now) =>
      if task !in s.tasks || !s.tasks[task].Fetching? then s else
        var t := s.tasks[task];
        s.(entries := Remembered(s.entries, t.issuer, t.start, keys),
           tasks := s.tasks[task := Done],
           fetches := s.fetches + [Fetch(t.issuer, keys, t.start, now)])
    case FetchFails(task, _) =>
      if task !in s.tasks || !s.tasks[task].Fetching? then s else s.(tasks := s.tasks[task := Done])
    case Invalidate(issuer, _) => s.(entries := Forgotten(s.entries, issuer))
  }

  class Cache {
    var entries: map<Issuer, Entry>

    constructor ()
      ensures entries == map[]
    {
      entries := map[];
    }

    /** get_jwks up to its fetch. */
    method Consult(issuer: Issuer, now: real) returns (cached: Option<seq<Key>>)
      ensures cached == Lookup(entries, issuer, now)
    {
      cached := None;
      if issuer in entries {
        var entry := entries[issuer];
        if now - entry.fetchedAt < JWKS_TTL {
          cached := Some(entry.keys);
        }
      }
    }

    /** get_jwks after its fetch: the entry carries the clock read before it, so it serves for an hour from then. */
    method Remember(issuer: Issuer, start: real, keys: seq<Key>)
      modifies this
      ensures entries == Remembered(old(entries), issuer, start, keys)
      ensures forall now :: Lookup(entries, issuer, now) == if now < start + 3600.0 then Some(keys) else None
      ensures OthersUnaffected(old(entries), entries, issuer)
    {
      entries := entries[issuer := Entry(start, keys)];
    }

    method InvalidateJwksCache(issuer: Issuer)
      modifies this
      ensures entries == Forgotten(old(entries), issuer)
      ensures forall now :: Lookup(entries, issuer, now) == None
      ensures OthersUnaffected(old(entries), entries, issuer)
    {
      entries := entries - {issuer};
    }
  }

  function Run(steps: seq<Step>): System {
    if steps == [] then System(map[], map[], [], []) else Next(Run(steps[..|steps| - 1]), steps[|steps| - 1])
  }

  ghost predicate OneClock(steps: seq<Step>) {
    forall i, j :: 0 <= i < j < |steps| ==> steps[i].now <= steps[j].now
  }

  /** These keys came from a fetch for this issuer that was over by `at` and had started less than an hour before it. */
  ghost predicate FreshFor(fetches: seq<Fetch>, served: Served) {
    exists i :: 0 <= i < |fetches| && fetches[i].issuer == served.issuer && fetches[i].keys == served.keys
                && fetches[i].finished <= served.at < fetches[i].started + 3600.0
  }

  ghost predicate Backed(fetches: seq<Fetch>, issuer: Issuer, entry: Entry, now: real) {
    exists i :: 0 <= i < |fetches| && fetches[i].issuer == issuer && fetches[i].keys == entry.keys
                && fetches[i].started == entry.fetchedAt && fetches[i].started <= fetches[i].finished <= now
  }

  ghost predicate Sound(s: System, now: real) {
    && (forall issuer :: issuer in s.entries ==> Backed(s.fetches, issuer, s.entries[issuer], now))
    && (forall t :: t in s.tasks && s.tasks[t].Fetching? ==> s.tasks[t].start <= now)
    && (forall i :: 0 <= i < |s.hits| ==> FreshFor(s.fetches, s.hits[i]))
  }

  lemma MoreFetchesKeepFacts(fetches: seq<Fetch>, fetch: Fetch, now: real, later: real)
    requires now <= later
    ensures forall issuer: Issuer, entry: Entry ::
              Backed(fetches, issuer, entry, now) ==> Backed(fetches + [fetch], issuer, entry, later)
    ensures forall served: Served :: FreshFor(fetches, served) ==> FreshFor(fetches + [fetch], served)
  {
    assert forall i :: 0 <= i < |fetches| ==> (fetches + [fetch])[i] == fetches[i];
  }

  lemma LookupIsFresh(s: System, issuer: Issuer, before: real, now: real)
    requires Sound(s, before) && before <= now && Lookup(s.entries, issuer, now).Some?
    ensures FreshFor(s.fetches, Served(issuer, Lookup(s.entries, issuer, now).value, now))
  {
    var entry := s.entries[issuer];
    var i :| 0 <= i < |s.fetches| && s.fetches[i].issuer == issuer && s.fetches[i].keys == entry.keys
             && s.fetches[i].started == entry.fetchedAt && s.fetches[i].started <= s.fetches[i].finished <= before;
    assert s.fetches[i].finished <= now < s.fetches[i].started + 3600.0;
  }

  lemma TimeKeepsBacked(s: System, before: real, now: real)
    requires Sound(s, before) && before <= now
    ensures Sound(s, now)
  {
    forall issuer | issuer in s.entries ensures Backed(s.fetches, issuer, s.entries[issuer], now) {
      assert Backed(s.fetches, issuer, s.entries[issuer], before);
    }
  }

  lemma ReturnKeepsSound(s: System, task: TaskId, keys: seq<Key>, now: real)
    requires Sound(s, now) && task in s.tasks && s.tasks[task].Fetching?
    ensures Sound(Next(s, FetchReturns(task, keys, now)), now)
  {
    var t, after := s.tasks[task], Next(s, FetchReturns(task, keys, now));
    var fetch := Fetch(t.issuer, keys, t.start, now);
    MoreFetchesKeepFacts(s.fetches, fetch, now, now);
    assert after.fetches[|s.fetches|] == fetch;
    assert Backed(after.fetches, t.issuer, after.entries[t.issuer], now);
  }

  lemma StepKeepsSound(s: System, step: Step, before: real)
    requires Sound(s, before) && before <= step.now
    ensures Sound(Next(s, step), step.now)
  {
    TimeKeepsBacked(s, before, step.now);
    match step {
      case Get(task, issuer, now) =>
        if task !in s.tasks && Lookup(s.entries, issuer, now).Some? {
          LookupIsFresh(s, issuer, before, now);
        }
      case FetchReturns(task, keys, now) =>
        if task in s.tasks && s.tasks[task].Fetching? {
          ReturnKeepsSound(s, task, keys, now);
        }
      case _ =>
    }
  }

  /** However fetches interleave, keys served from the cache come from a fetch that started under an hour ago. */
  lemma {:induction false} CacheHitsAreFresh(steps: seq<Step>)
    requires OneClock(steps)
    ensures steps != [] ==> Sound(Run(steps), steps[|steps| - 1].now)
    ensures forall i :: 0 <= i < |Run(steps).hits| ==> FreshFor(Run(steps).fetches, Run(steps).hits[i])
  {
    if steps == [] {
    } else {
      var before, last := steps[..|steps| - 1], steps[|steps| - 1];
      CacheHitsAreFresh(before);
      StepKeepsSound(Run(before), last, if before == [] then last.now else before[|before| - 1].now);
    }
  }

  // ---------------------------------------------------------------------
  // What the cache answers
  // ---------------------------------------------------------------------

  predicate Writes(s: System, step: Step, issuer: Issuer) {
    && step.FetchReturns? && step.task in s.tasks && s.tasks[step.task].Fetching?
    && s.tasks[step.task].issuer == issuer
  }

  /** What the issuer was last left with: nothing by an invalidation, else the keys of a fetch that returned for it. */
  function LastEntry(steps: seq<Step>, issuer: Issuer): Option<Entry> {
    if steps == [] then None else
      var before, last := steps[..|steps| - 1], steps[|steps| - 1];
      if last.Invalidate? && last.issuer == issuer then None
      else if Writes(Run(before), last, issuer) then Some(Entry(Run(before).tasks[last.task].start, last.keys))
      else LastEntry(before, issuer)
  }

  /** Those keys are answered for an hour from the moment their fetch began. */
  function Cached(steps: seq<Step>, issuer: Issuer, now: real): Option<seq<Key>> {
    var entry := LastEntry(steps, issuer);
    if entry.Some? && now < entry.value.fetchedAt + 3600.0 then Some(entry.value.keys) else None
  }

  lemma StepLeaves(s: System, step: Step, issuer: Issuer)
    ensures var after := Next(s, step).entries;
            if step.Invalidate? && step.issuer == issuer then issuer !in after
            else if Writes(s, step, issuer) then
              issuer in after && after[issuer] == Entry(s.tasks[step.task].start, step.keys)
            else
              && (issuer in after <==> issuer in s.entries)
              && (issuer in after ==> after[issuer] == s.entries[issuer])
  {
  }

  /** The answer to a lookup in every run, however its fetches interleave. */
  lemma {:induction false} LookupExactly(steps: seq<Step>, issuer: Issuer, now: real)
    ensures issuer in Run(steps).entries <==> LastEntry(steps, issuer).Some?
    ensures issuer in Run(steps).entries ==> Run(steps).entries[issuer] == LastEntry(steps, issuer).value
    ensures Lookup(Run(steps).entries, issuer, now) == Cached(steps, issuer, now)
  {
    if steps == [] {
    } else {
      LookupExactly(steps[..|steps| - 1], issuer, now);
      StepLeaves(Run(steps[..|steps| - 1]), steps[|steps| - 1], issuer);
    }
  }

  /** The calls of a run that found keys to be answered with. */
  function CallsCached(steps: seq<Step>): seq<Served> {
    if steps == [] then [] else
      var before, last := steps[..|steps| - 1], steps[|steps| - 1];
      CallsCached(before)
      + if last.Get? && last.task !in Run(before).tasks && Cached(before, last.issuer, last.now).Some?
        then [Served(last.issuer, Cached(before, last.issuer, last.now).value, last.now)] else []
  }

  /** They are the hits, in order. */
  lemma {:induction false} HitsExactly(steps: seq<Step>)
    ensures Run(steps).hits == CallsCached(steps)
  {
    if steps == [] {
    } else {
      var before, last := steps[..|steps| - 1], steps[|steps| - 1];
      HitsExactly(before);
      if last.Get? {
        LookupExactly(before, last.issuer, last.now);
      }
    }
  }

  /** The fetch the task is suspended in: begun by a call that found nothing, and neither returned nor failed since. */
  function FetchOf(steps: seq<Step>, t: TaskId): Option<Task> {
    if steps == [] then None else
      var before, last := steps[..|steps| - 1], steps[|steps| - 1];
      if last.Get? && last.task == t && t !in Run(before).tasks then
        if Cached(before, last.issuer, last.now).None? then Some(Fetching(last.issuer, last.now)) else None
      else if (last.FetchReturns? || last.FetchFails?) && last.task == t then None
      else FetchOf(before, t)
  }

  lemma {:induction false} FetchesExactly(steps: seq<Step>, t: TaskId)
    ensures t in Run(steps).tasks && Run(steps).tasks[t].Fetching? <==> FetchOf(steps, t).Some?
    ensures FetchOf(steps, t).Some? ==> Run(steps).tasks[t] == FetchOf(steps, t).value
  {
    if steps == [] {
    } else {
      var before, last := steps[..|steps| - 1], steps[|steps| - 1];
      FetchesExactly(before, t);
      if last.Get? {
        LookupExactly(before, last.issuer, last.now);
      }
    }
  }

  // ---------------------------------------------------------------------
  // What an invalidation leaves behind
  // ---------------------------------------------------------------------

  lemma RunAppend(steps: seq<Step>, step: Step)
    ensures Run(steps + [step]) == Next(Run(steps), step)
  {
    assert (steps + [step])[..|steps|] == steps;
  }

  /** A task is known exactly from its first Get on. */
  lemma {:induction false} KnownSinceItsGet(steps: seq<Step>, t: TaskId)
    ensures t in Run(steps).tasks <==> exists g :: 0 <= g < |steps| && steps[g].Get? && steps[g].task == t
  {
    if steps == [] {
    } else {
      var n := |steps| - 1;
      var before := steps[..n];
      KnownSinceItsGet(before, t);
      assert forall g :: 0 <= g < n ==> before[g] == steps[g];
      assert t in Run(before).tasks ==> t in Run(steps).tasks;
      if t in Run(steps).tasks && t !in Run(before).tasks {
        assert steps[n].Get? && steps[n].task == t;
      }
    }
  }

  /** A fetch under way has been so, with the same clock reading, ever since its task became known. */
  lemma {:induction false} FetchingSince(steps: seq<Step>, more: seq<Step>, t: TaskId)
    requires t in Run(steps).tasks && t in Run(steps + more).tasks && Run(steps + more).tasks[t].Fetching?
    ensures Run(steps).tasks[t] == Run(steps + more).tasks[t]
  {
    if more == [] {
      assert steps + more == steps;
    } else {
      var n := |more| - 1;
      assert steps + more == steps + more[..n] + [more[n]];
      RunAppend(steps + more[..n], more[n]);
      KnownSinceItsGet(steps, t);
      KnownSinceItsGet(steps + more[..n], t);
      assert forall g :: 0 <= g < |steps| ==> (steps + more[..n])[g] == steps[g];
      FetchingSince(steps, more[..n], t);
    }
  }

  /** Step `p` of these wrote the issuer's entry as it is after all of them. */
  ghost predicate WroteLast(steps: seq<Step>, more: seq<Step>, issuer: Issuer, p: nat)
    requires issuer in Run(steps + more).entries
  {
    && p < |more| && Writes(Run(steps + more[..p]), more[p], issuer)
    && Run(steps + more).entries[issuer] == Entry(Run(steps + more[..p]).tasks[more[p].task].start, more[p].keys)
  }

  lemma WriteBefore(steps: seq<Step>, more: seq<Step>, issuer: Issuer, q: nat) returns (p: nat)
    requires more != [] && issuer in Run(steps + more).entries && issuer in Run(steps + more[..|more| - 1]).entries
    requires Run(steps + more).entries[issuer] == Run(steps + more[..|more| - 1]).entries[issuer]
    requires q == |more| - 1 || WroteLast(steps, more[..|more| - 1], issuer, q)
    ensures p == |more| == q + 1 || (p == q && WroteLast(steps, more, issuer, p))
  {
    if q == |more| - 1 {
      p := |more|;
    } else {
      assert more[..|more| - 1][..q] == more[..q];
      p := q;
    }
  }

  /** The last step that wrote the issuer's entry, if any of these did. */
  lemma {:induction false} LastWrite(steps: seq<Step>, more: seq<Step>, issuer: Issuer) returns (p: nat)
    requires issuer in Run(steps + more).entries
    ensures p <= |more| && (p == |more| ==> issuer in Run(steps).entries)
    ensures p < |more| ==> WroteLast(steps, more, issuer, p)
  {
    if more == [] {
      assert steps + more == steps;
      p := 0;
    } else {
      var n := |more| - 1;
      assert steps + more == steps + more[..n] + [more[n]];
      RunAppend(steps + more[..n], more[n]);
      StepLeaves(Run(steps + more[..n]), more[n], issuer);
      if Writes(Run(steps + more[..n]), more[n], issuer) {
        p := n;
      } else {
        var q := LastWrite(steps, more[..n], issuer);
        p := WriteBefore(steps, more, issuer, q);
      }
    }
  }

  /** A fetch under way now was begun within the first of these steps exactly when it was under way after them. */
  lemma BegunWithin(steps: seq<Step>, more: seq<Step>, t: TaskId)
    requires t in Run(steps + more).tasks && Run(steps + more).tasks[t].Fetching?
    ensures (exists g :: 0 <= g < |steps| && steps[g].Get? && steps[g].task == t)
            <==> t in Run(steps).tasks && Run(steps).tasks[t] == Run(steps + more).tasks[t]
  {
    KnownSinceItsGet(steps, t);
    if t in Run(steps).tasks {
      FetchingSince(steps, more, t);
    }
  }

  /**
   A hit after an invalidation is served from the last fetch that returned for the issuer since; and that fetch
   was begun before the invalidation if and only if it was under way when the cache was invalidated.
   */
  lemma HitAfterInvalidation(before: seq<Step>, at: real, after: seq<Step>, issuer: Issuer, now: real)
    returns (p: nat)
    requires Lookup(Run(before + [Invalidate(issuer, at)] + after).entries, issuer, now).Some?
    ensures p < |after|
    ensures var s := Run(before + [Invalidate(issuer, at)] + after[..p]);
            && Writes(s, after[p], issuer)
            && Run(before + [Invalidate(issuer, at)] + after).entries[issuer]
               == Entry(s.tasks[after[p].task].start, after[p].keys)
            && ((exists g :: 0 <= g < |before| && before[g].Get? && before[g].task == after[p].task)
                <==> && after[p].task in Run(before).tasks
                     && Run(before).tasks[after[p].task] == s.tasks[after[p].task])
  {
    var invalidated := before + [Invalidate(issuer, at)];
    RunAppend(before, Invalidate(issuer, at));
    p := LastWrite(invalidated, after, issuer);
    assert before + ([Invalidate(issuer, at)] + after[..p]) == invalidated + after[..p];
    BegunWithin(before, [Invalidate(issuer, at)] + after[..p], after[p].task);
  }

  ghost predicate FetchUnderWay(s: System, issuer: Issuer) {
    exists t :: t in s.tasks && s.tasks[t].Fetching? && s.tasks[t].issuer == issuer
  }

  predicate NoNewFetch(more: seq<Step>, issuer: Issuer) {
    forall i :: 0 <= i < |more| ==> !(more[i].Get? && more[i].issuer == issuer)
  }

  lemma NothingComes(s: System, step: Step, issuer: Issuer)
    requires issuer !in s.entries && !FetchUnderWay(s, issuer) && !(step.Get? && step.issuer == issuer)
    ensures issuer !in Next(s, step).entries && !FetchUnderWay(Next(s, step), issuer)
  {
  }

  lemma {:induction false} NothingComesBack(steps: seq<Step>, more: seq<Step>, issuer: Issuer)
    requires issuer !in Run(steps).entries && !FetchUnderWay(Run(steps), issuer) && NoNewFetch(more, issuer)
    ensures issuer !in Run(steps + more).entries && !FetchUnderWay(Run(steps + more), issuer)
  {
    if more == [] {
      assert steps + more == steps;
    } else {
      var n := |more| - 1;
      NothingComesBack(steps, more[..n], issuer);
      assert steps + more == steps + more[..n] + [more[n]];
      RunAppend(steps + more[..n], more[n]);
      NothingComes(Run(steps + more[..n]), more[n], issuer);
    }
  }

  /**
   An invalidation holds until the issuer is asked for again, whatever else happens, if and only if no fetch
   for it is under way: one that is puts its keys back when it returns.
   */
  lemma InvalidationHoldsExactly(steps: seq<Step>, issuer: Issuer, at: real)
    ensures (forall more, now :: NoNewFetch(more, issuer) ==>
               Lookup(Run(steps + [Invalidate(issuer, at)] + more).entries, issuer, now) == None)
            <==> !FetchUnderWay(Run(steps), issuer)
  {
    var invalidated := steps + [Invalidate(issuer, at)];
    RunAppend(steps, Invalidate(issuer, at));
    if FetchUnderWay(Run(steps), issuer) {
      var t :| t in Run(steps).tasks && Run(steps).tasks[t].Fetching? && Run(steps).tasks[t].issuer == issuer;
      var start, back := Run(steps).tasks[t].start, FetchReturns(t, [], at);
      RunAppend(invalidated, back);
      assert NoNewFetch([back], issuer);
      assert Lookup(Run(invalidated + [back]).entries, issuer, start) == Some([]);
    } else {
      forall more, now | NoNewFetch(more, issuer) ensures Lookup(Run(invalidated + more).entries, issuer, now) == None {
        NothingComesBack(invalidated, more, issuer);
      }
    }
  }

  // ---------------------------------------------------------------------
  // Key search
  // ---------------------------------------------------------------------

  datatype Claims = Claims(subject: string, nonce: Option<string>, iat: real)

  /** Decoding under one key: claims, the expiry error, or any other JWT error. */
  datatype Decoded = Decodes(claims: Claims) | HasExpired | Fails

  datatype Verdict = Valid(claims: Claims) | NonceMismatch | IssuedInFuture | TokenExpired | SignatureInvalid

  /** The first pass is settled by the first key that does not fail, and `d` is what decoding under it comes to. */
  ghost predicate Settles(keys: seq<Key>, decode: Key -> Decoded, d: Decoded) {
    exists i :: && 0 <= i < |keys| && decode(keys[i]) == d && !d.Fails?
                && forall j :: 0 <= j < i ==> decode(keys[j]).Fails?
  }

  /** In the second pass expiry is one more JWT error: the first key under which the token decodes counts. */
  ghost predicate DecodesFirst(keys: seq<Key>, decode: Key -> Decoded, claims: Claims) {
    exists i :: && 0 <= i < |keys| && decode(keys[i]) == Decodes(claims)
                && forall j :: 0 <= j < i ==> !decode(keys[j]).Decodes?
  }

  /**
   `decode` and `redecode` are what decoding comes to during the two passes. The second pass runs exactly when
   every key of the first failed, and unlike the first it does not look at `iat`.
   */
  method ValidateIdToken(keys: seq<Key>, decode: Key -> Decoded, freshKeys: seq<Key>, redecode: Key -> Decoded,
                         nonce: string, now: real)
    returns (verdict: Verdict, refetched: bool)
    ensures refetched <==> forall i :: 0 <= i < |keys| ==> decode(keys[i]).Fails?
    ensures forall claims :: verdict == Valid(claims) <==>
              && claims.nonce == Some(nonce)
              && if refetched then DecodesFirst(freshKeys, redecode, claims)
                 else Settles(keys, decode, Decodes(claims)) && claims.iat <= now + 300.0
    ensures verdict == TokenExpired <==> !refetched && Settles(keys, decode, HasExpired)
    ensures verdict == IssuedInFuture <==>
              !refetched && exists claims ::
                Settles(keys, decode, Decodes(claims)) && claims.nonce == Some(nonce) && claims.iat > now + 300.0
    ensures verdict == NonceMismatch <==>
              exists claims: Claims ::
                && claims.nonce != Some(nonce)
                && if refetched then DecodesFirst(freshKeys, redecode, claims)
                   else Settles(keys, decode, Decodes(claims))
    ensures verdict == SignatureInvalid <==>
              refetched && forall i :: 0 <= i < |freshKeys| ==> !redecode(freshKeys[i]).Decodes?
  {
    for i := 0 to |keys|
      invariant forall j :: 0 <= j < i ==> decode(keys[j]).Fails?
    {
      match decode(keys[i])
      case Decodes(claims) =>
        assert Settles(keys, decode, Decodes(claims));
        if claims.nonce != Some(nonce) {
          return NonceMismatch, false;
        }
        if claims.iat > now + 300.0 {
          return IssuedInFuture, false;
        }
        return Valid(claims), false;
      case HasExpired =>
        assert Settles(keys, decode, HasExpired);
        return TokenExpired, false;
      case Fails =>
    }
    refetched := true;
    for i := 0 to |freshKeys|
      invariant forall j :: 0 <= j < i ==> !redecode(freshKeys[j]).Decodes?
    {
      match redecode(freshKeys[i])
      case Decodes(claims) =>
        assert DecodesFirst(freshKeys, redecode, claims);
        if claims.nonce != Some(nonce) {
          return NonceMismatch, true;
        }
        return Valid(claims), true;
      case HasExpired =>
      case Fails =>
    }
    verdict := SignatureInvalid;
  }
}
