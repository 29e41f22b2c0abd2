/** Who an API key is: the registry's answers behind a bounded cache that forgets by age and by
    disuse. A resolve looks, and when it finds nothing fresh asks the registry and stores; other
    resolves run while it waits for the answer. */
module KeyCache {
  import opened Domain

  const KEY_CACHE_SECONDS: Time := 60.0
  const KEY_NEGATIVE_CACHE_SECONDS: Time := 10.0
  const MAX_CACHED_KEYS := 10_000

  /** What the registry says of a key: who it is, or that it is refused. */
  datatype Answer = Known(info: string) | Turned(fault: string)

  /** How asking went; an unreachable, failing or malformed registry is no answer. */
  datatype Introspection = Answered(answer: Answer) | Unavailable

  datatype Entry = Entry(digest: string, expiresAt: Time, answer: Answer)

  function Ttl(answer: Answer): Time {
    if answer.Known? then KEY_CACHE_SECONDS else KEY_NEGATIVE_CACHE_SECONDS
  }

  // ---------------------------------------------------------------- the ordered dictionary

  /** Where the key is, or |cache|. Oldest use first. */
  function Index(cache: seq<Entry>, digest: string): (i: nat)
    ensures i <= |cache|
    ensures i < |cache| ==> cache[i].digest == digest
    ensures forall j :: 0 <= j < i ==> cache[j].digest != digest
  {
    if cache == [] || cache[0].digest == digest then 0 else 1 + Index(cache[1..], digest)
  }

  function Without(cache: seq<Entry>, digest: string): seq<Entry> {
    var i := Index(cache, digest);
    if i == |cache| then cache else cache[..i] + cache[i + 1..]
  }

  predicate Fresh(cache: seq<Entry>, digest: string, now: Time) {
    var i := Index(cache, digest);
    i < |cache| && cache[i].expiresAt > now
  }

  /** Put last, as the most recently used. */
  function Placed(cache: seq<Entry>, e: Entry): seq<Entry> {
    Without(cache, e.digest) + [e]
  }

  function Trimmed(cache: seq<Entry>, bound: nat): seq<Entry> {
    if |cache| > bound then cache[|cache| - bound..] else cache
  }

  class KeyRegistry {
    var cache: seq<Entry>

    constructor ()
      ensures cache == []
    {
      cache := [];
    }

    /** The first half of a resolve: a fresh answer, which is thereby used. */
    method Look(digest: string, now: Time) returns (hit: Option<Answer>)
      modifies this
      ensures hit.Some? <==> Fresh(old(cache), digest, now)
      ensures hit.Some? ==> hit.value == old(cache)[Index(old(cache), digest)].answer
      ensures cache == if hit.Some? then Placed(old(cache), old(cache)[Index(old(cache), digest)]) else old(cache)
    {
      var i := Index(cache, digest);
      if i < |cache| && cache[i].expiresAt > now {
        var e := cache[i];
        cache := Without(cache, digest) + [e];
        return Some(e.answer);
      }
      return None;
    }

    /** The second half: the registry's answer to a question put at `asked`. */
    method Store(digest: string, asked: Time, answer: Answer)
      modifies this
      ensures cache == Trimmed(Placed(old(cache), Entry(digest, asked + Ttl(answer), answer)), MAX_CACHED_KEYS)
    {
      cache := Without(cache, digest) + [Entry(digest, asked + Ttl(answer), answer)];
      ghost var placed := cache;
      while |cache| > MAX_CACHED_KEYS
        invariant |cache| <= |placed| && cache == placed[|placed| - |cache|..]
        invariant |placed| > MAX_CACHED_KEYS ==> |cache| >= MAX_CACHED_KEYS
        invariant |placed| <= MAX_CACHED_KEYS ==> cache == placed
      {
        cache := cache[1..];
      }
    }

    /** A resolve nothing else runs beside: the cached answer while it is fresh, else the registry's;
        and a registry that cannot be asked leaves the cache as it was. */
    method Resolve(digest: string, now: Time, registry: Introspection) returns (result: Introspection)
      modifies this
      ensures Fresh(old(cache), digest, now) ==>
                result == Introspection.Answered(old(cache)[Index(old(cache), digest)].answer)
      ensures Fresh(old(cache), digest, now) ==> cache == Placed(old(cache), old(cache)[Index(old(cache), digest)])
      ensures !Fresh(old(cache), digest, now) ==> result == registry
      ensures !Fresh(old(cache), digest, now) && registry.Unavailable? ==> cache == old(cache)
      ensures !Fresh(old(cache), digest, now) && registry.Answered? ==>
                cache == Trimmed(Placed(old(cache), Entry(digest, now + Ttl(registry.answer), registry.answer)), MAX_CACHED_KEYS)
    {
      var hit := Look(digest, now);
      if hit.Some? {
        return Introspection.Answered(hit.value);
      }
      if registry.Unavailable? {
        return Unavailable;
      }
      Store(digest, now, registry.answer);
      return registry;
    }
  }

  // ---------------------------------------------------------------- any overlap of resolves

  /** An answer the registry gave to a question put at `at`. */
  datatype Asked = Asked(digest: string, at: Time, answer: Answer)

  /** The halves of any number of resolves, in any order. */
  datatype Step = Look(digest: string, now: Time) | Store(asked: Asked)

  /** The cache, what the registry has answered, and the keys used, oldest first. */
  datatype World = World(cache: seq<Entry>, answers: seq<Asked>, uses: seq<string>)

  const START := World([], [], [])

  function Next(w: World, s: Step, bound: nat): World {
    match s
    case Look(digest, now) =>
      if Fresh(w.cache, digest, now) then
        World(Placed(w.cache, w.cache[Index(w.cache, digest)]), w.answers, w.uses + [digest])
      else w
    case Store(asked) =>
      World(Trimmed(Placed(w.cache, Entry(asked.digest, asked.at + Ttl(asked.answer), asked.answer)), bound),
            w.answers + [asked], w.uses + [asked.digest])
  }

  function After(steps: seq<Step>, n: nat, bound: nat): World
    requires n <= |steps|
  {
    if n == 0 then START else Next(After(steps, n - 1, bound), steps[n - 1], bound)
  }

  // ---------------------------------------------------------------- what always holds

  /** The last time a key was used, or -1. */
  function LastUse(uses: seq<string>, digest: string): (i: int)
    ensures -1 <= i < |uses|
    ensures i >= 0 ==> uses[i] == digest
    ensures forall j :: i < j < |uses| ==> uses[j] != digest
  {
    if uses == [] then -1
    else if uses[|uses| - 1] == digest then |uses| - 1
    else LastUse(uses[..|uses| - 1], digest)
  }

  lemma LastUseAfter(uses: seq<string>, used: string, digest: string)
    ensures LastUse(uses + [used], digest) == if digest == used then |uses| else LastUse(uses, digest)
  {
    assert (uses + [used])[..|uses|] == uses;
  }

  /** An entry is an answer the registry gave, kept for its time from the question on. */
  ghost predicate FromRegistry(e: Entry, answers: seq<Asked>) {
    exists k :: 0 <= k < |answers| && answers[k].digest == e.digest && answers[k].answer == e.answer
                && e.expiresAt == answers[k].at + Ttl(e.answer)
  }

  /** In the order of their last use, each key once. */
  ghost predicate ByUse(cache: seq<Entry>, uses: seq<string>) {
    && (forall i :: 0 <= i < |cache| ==> LastUse(uses, cache[i].digest) >= 0)
    && (forall i, j :: 0 <= i < j < |cache| ==> LastUse(uses, cache[i].digest) < LastUse(uses, cache[j].digest))
  }

  ghost predicate CacheInv(w: World, bound: nat) {
    && |w.cache| <= bound
    && ByUse(w.cache, w.uses)
    && (forall i :: 0 <= i < |w.cache| ==> FromRegistry(w.cache[i], w.answers))
  }

  /** Leaving a key out keeps the others, in their order. */
  lemma WithoutAt(cache: seq<Entry>, digest: string)
    ensures
      var i, rest := Index(cache, digest), Without(cache, digest);
      && |rest| == |cache| - (if i < |cache| then 1 else 0)
      && forall j :: 0 <= j < |rest| ==> rest[j] == cache[if j < i then j else j + 1]
  {
  }

  lemma WithoutByUse(cache: seq<Entry>, digest: string, uses: seq<string>)
    requires ByUse(cache, uses)
    ensures ByUse(Without(cache, digest), uses)
  {
    hide Without, Index, LastUse;
    WithoutAt(cache, digest);
  }

  lemma WithoutHas(cache: seq<Entry>, digest: string, uses: seq<string>)
    requires ByUse(cache, uses)
    ensures forall e :: e in Without(cache, digest) <==> e in cache && e.digest != digest
  {
    hide Without;
    WithoutAt(cache, digest);
    var i, rest := Index(cache, digest), Without(cache, digest);
    forall e | e in rest ensures e in cache && e.digest != digest {
      var j :| 0 <= j < |rest| && rest[j] == e;
      var at := if j < i then j else j + 1;
      assert cache[at] == e;
      assert at < i || (i < |cache| && LastUse(uses, cache[i].digest) < LastUse(uses, cache[at].digest));
    }
    forall e | e in cache && e.digest != digest ensures e in rest {
      var at :| 0 <= at < |cache| && cache[at] == e;
      assert at < i ==> rest[at] == e;
      assert at > i ==> rest[at - 1] == e;
    }
  }

  lemma WithoutIsSubsequence(cache: seq<Entry>, digest: string, uses: seq<string>)
    requires ByUse(cache, uses)
    ensures ByUse(Without(cache, digest), uses)
    ensures forall e :: e in Without(cache, digest) <==> e in cache && e.digest != digest
    ensures |Without(cache, digest)| == |cache| - if Index(cache, digest) < |cache| then 1 else 0
  {
    hide Without, ByUse;
    WithoutAt(cache, digest);
    WithoutByUse(cache, digest, uses);
    WithoutHas(cache, digest, uses);
  }

  /** Placing an entry keeps the order of use once its use is counted. */
  lemma PlacedByUse(cache: seq<Entry>, e: Entry, uses: seq<string>)
    requires ByUse(cache, uses)
    ensures ByUse(Placed(cache, e), uses + [e.digest])
    ensures forall x :: x in Placed(cache, e) <==> x == e || (x in cache && x.digest != e.digest)
  {
    WithoutIsSubsequence(cache, e.digest, uses);
    hide Without, LastUse;
    var rest, placed := Without(cache, e.digest), Placed(cache, e);
    assert placed[|rest|] == e;
    forall i | 0 <= i < |rest| ensures LastUse(uses + [e.digest], placed[i].digest) == LastUse(uses, rest[i].digest) {
      assert rest[i] in rest;
      LastUseAfter(uses, e.digest, rest[i].digest);
    }
    LastUseAfter(uses, e.digest, e.digest);
  }

  lemma FromMoreAnswers(e: Entry, answers: seq<Asked>, asked: Asked)
    ensures FromRegistry(e, answers) ==> FromRegistry(e, answers + [asked])
    ensures FromRegistry(Entry(asked.digest, asked.at + Ttl(asked.answer), asked.answer), answers + [asked])
  {
    var more := answers + [asked];
    assert more[|answers|] == asked;
    if FromRegistry(e, answers) {
      var k :| 0 <= k < |answers| && answers[k].digest == e.digest && answers[k].answer == e.answer
               && e.expiresAt == answers[k].at + Ttl(e.answer);
      assert more[k] == answers[k];
    }
  }

  lemma LookKeeps(w: World, s: Step, bound: nat)
    requires CacheInv(w, bound) && s.Look?
    ensures CacheInv(Next(w, s, bound), bound)
  {
    if Fresh(w.cache, s.digest, s.now) {
      var e := w.cache[Index(w.cache, s.digest)];
      PlacedByUse(w.cache, e, w.uses);
      WithoutIsSubsequence(w.cache, s.digest, w.uses);
      var placed := Placed(w.cache, e);
      forall i | 0 <= i < |placed| ensures FromRegistry(placed[i], w.answers) {
        assert placed[i] in placed;
      }
    }
  }

  lemma StoreKeeps(w: World, s: Step, bound: nat)
    requires CacheInv(w, bound) && s.Store? && bound > 0
    ensures CacheInv(Next(w, s, bound), bound)
  {
    hide Placed, LastUse, FromRegistry;
    var e := Entry(s.asked.digest, s.asked.at + Ttl(s.asked.answer), s.asked.answer);
    var placed, after := Placed(w.cache, e), Next(w, s, bound);
    PlacedByUse(w.cache, e, w.uses);
    forall i | 0 <= i < |placed| ensures FromRegistry(placed[i], after.answers) {
      assert placed[i] in placed;
      FromMoreAnswers(placed[i], w.answers, s.asked);
    }
  }

  lemma {:induction false} CacheStaysGood(steps: seq<Step>, n: nat, bound: nat)
    requires n <= |steps| && bound > 0
    ensures CacheInv(After(steps, n, bound), bound)
  {
    hide Next;
    if n > 0 {
      CacheStaysGood(steps, n - 1, bound);
      if steps[n - 1].Look? {
        LookKeeps(After(steps, n - 1, bound), steps[n - 1], bound);
      } else {
        StoreKeeps(After(steps, n - 1, bound), steps[n - 1], bound);
      }
    }
  }

  /** However resolves overlap: what a hit answers is what the registry itself answered for that
      key, to a question put less than a minute ago (a known key) or ten seconds ago (a refused
      one); and the cache is never larger than its bound. */
  lemma HitsAreRecent(steps: seq<Step>, n: nat, bound: nat, digest: string, now: Time)
    requires n <= |steps| && bound > 0
    requires Fresh(After(steps, n, bound).cache, digest, now)
    ensures
      var w := After(steps, n, bound);
      var answer := w.cache[Index(w.cache, digest)].answer;
      exists k :: 0 <= k < |w.answers| && w.answers[k].digest == digest && w.answers[k].answer == answer
                  && now - w.answers[k].at < if answer.Known? then 60.0 else 10.0
    ensures |After(steps, n, bound).cache| <= bound
  {
    CacheStaysGood(steps, n, bound);
    var w := After(steps, n, bound);
    var e := w.cache[Index(w.cache, digest)];
    assert FromRegistry(e, w.answers);
    var k :| 0 <= k < |w.answers| && w.answers[k].digest == e.digest && w.answers[k].answer == e.answer
             && e.expiresAt == w.answers[k].at + Ttl(e.answer);
    assert now - w.answers[k].at < if e.answer.Known? then 60.0 else 10.0;
  }

  /** An answer just stored is given until exactly a minute after it was asked for, a refusal ten seconds. */
  lemma KeptForItsTime(steps: seq<Step>, n: nat, bound: nat, now: Time)
    requires n < |steps| && bound > 0 && steps[n].Store?
    ensures
      var asked, cache := steps[n].asked, After(steps, n + 1, bound).cache;
      && (Fresh(cache, asked.digest, now) <==> now < asked.at + if asked.answer.Known? then 60.0 else 10.0)
      && (Fresh(cache, asked.digest, now) ==> cache[Index(cache, asked.digest)].answer == asked.answer)
  {
    hide Next, LastUse, Index, CacheInv;
    CacheStaysGood(steps, n + 1, bound);
    StoredLast(After(steps, n, bound), steps[n], bound);
    IndexOfLast(After(steps, n + 1, bound), bound);
  }

  lemma StoredLast(w: World, s: Step, bound: nat)
    requires s.Store? && bound > 0
    ensures
      var cache := Next(w, s, bound).cache;
      cache != [] && cache[|cache| - 1] == Entry(s.asked.digest, s.asked.at + Ttl(s.asked.answer), s.asked.answer)
  {
    hide Index;
  }

  lemma IndexOfLast(w: World, bound: nat)
    requires CacheInv(w, bound) && w.cache != []
    ensures Index(w.cache, w.cache[|w.cache| - 1].digest) == |w.cache| - 1
  {
    hide LastUse, Index;
  }

  /** A store puts out at most one key, and it is the one whose last use is furthest back. */
  lemma EvictsLeastRecentlyUsed(steps: seq<Step>, n: nat, bound: nat, i: nat)
    requires n < |steps| && bound > 0 && steps[n].Store?
    requires
      var before, after := After(steps, n, bound), After(steps, n + 1, bound);
      && i < |before.cache| && before.cache[i].digest != steps[n].asked.digest
      && forall e :: e in after.cache ==> e.digest != before.cache[i].digest
    ensures
      var before, after := After(steps, n, bound), After(steps, n + 1, bound);
      && |after.cache| == bound
      && (forall j :: 0 <= j < |before.cache| && j != i && before.cache[j].digest != steps[n].asked.digest ==>
            before.cache[j] in after.cache && LastUse(before.uses, before.cache[i].digest) < LastUse(before.uses, before.cache[j].digest))
  {
    CacheStaysGood(steps, n, bound);
    var before := After(steps, n, bound);
    StoreEvicts(before, steps[n].asked, bound, i);
  }

  lemma StoreEvicts(before: World, asked: Asked, bound: nat, i: nat)
    requires CacheInv(before, bound) && bound > 0 && i < |before.cache| && before.cache[i].digest != asked.digest
    requires forall e :: e in Next(before, Store(asked), bound).cache ==> e.digest != before.cache[i].digest
    ensures |Next(before, Store(asked), bound).cache| == bound
    ensures forall j :: 0 <= j < |before.cache| && j != i && before.cache[j].digest != asked.digest ==>
      && before.cache[j] in Next(before, Store(asked), bound).cache
      && LastUse(before.uses, before.cache[i].digest) < LastUse(before.uses, before.cache[j].digest)
  {
    hide Placed, LastUse, ByUse;
    var e := Entry(asked.digest, asked.at + Ttl(asked.answer), asked.answer);
    var placed, after := Placed(before.cache, e), Next(before, Store(asked), bound).cache;
    PlacedSize(before.cache, e, before.uses);
    PlacedByUse(before.cache, e, before.uses);
    OnlyTheFirstGoes(placed, bound, before.cache[i]);
    forall j | 0 <= j < |before.cache| && j != i && before.cache[j].digest != asked.digest
      ensures before.cache[j] in after && LastUse(before.uses, before.cache[i].digest) < LastUse(before.uses, before.cache[j].digest)
    {
      DigestsDiffer(before.cache, before.uses, i, j);
      FirstIsLeast(placed, before.uses + [asked.digest], before.cache[j]);
      LastUseAfter(before.uses, asked.digest, before.cache[i].digest);
      LastUseAfter(before.uses, asked.digest, before.cache[j].digest);
    }
  }

  lemma PlacedSize(cache: seq<Entry>, e: Entry, uses: seq<string>)
    requires ByUse(cache, uses)
    ensures |Placed(cache, e)| <= |cache| + 1
  {
    WithoutIsSubsequence(cache, e.digest, uses);
  }

  /** Only a cache one over its bound loses an entry, and then its first. */
  lemma OnlyTheFirstGoes(placed: seq<Entry>, bound: nat, gone: Entry)
    requires |placed| <= bound + 1 && gone in placed
    requires forall e :: e in Trimmed(placed, bound) ==> e.digest != gone.digest
    ensures |placed| == bound + 1 && placed[0] == gone && Trimmed(placed, bound) == placed[1..]
  {
    assert placed == placed[..1] + placed[1..];
    assert gone in placed[1..] || gone == placed[0];
    assert placed[1..] == placed[|placed| - (|placed| - 1)..];
  }

  lemma FirstIsLeast(placed: seq<Entry>, uses: seq<string>, e: Entry)
    requires ByUse(placed, uses) && placed != [] && e in placed && e != placed[0]
    ensures e in placed[1..] && LastUse(uses, placed[0].digest) < LastUse(uses, e.digest)
  {
    hide LastUse;
    var k :| 0 <= k < |placed| && placed[k] == e;
    assert placed[1..][k - 1] == e;
  }

  lemma DigestsDiffer(cache: seq<Entry>, uses: seq<string>, i: nat, j: nat)
    requires ByUse(cache, uses) && i < |cache| && j < |cache| && i != j
    ensures cache[i].digest != cache[j].digest
  {
    hide LastUse;
  }
}
