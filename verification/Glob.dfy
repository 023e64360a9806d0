/** The glob matcher of the sampling rules: an in-place backtracking loop that
    remembers only the last `*`, in front of which sits a small LRU cache. */
module Glob {

  import opened Bytes

  // Patterns and subjects are the bytes of already lower-cased strings.
  const STAR: Byte := 42
  const QUESTION: Byte := 63
  const CACHE_CAPACITY: nat := 256

  /** The glob language: `*` stands for any bytes, `?` for exactly one byte and
      every other byte for itself. */
  ghost predicate InLanguage(pattern: seq<Byte>, subject: seq<Byte>)
    decreases |pattern|
  {
    if pattern == [] then
      subject == []
    else if pattern[0] == STAR then
      exists k :: 0 <= k <= |subject| && InLanguage(pattern[1..], subject[k..])
    else if subject == [] then
      false
    else
      (pattern[0] == QUESTION || pattern[0] == subject[0]) && InLanguage(pattern[1..], subject[1..])
  }

  predicate HasWildcard(pattern: seq<Byte>) {
    STAR in pattern || QUESTION in pattern
  }

  /** A leading `*` may swallow one more byte, or stop here. */
  lemma StarStep(pattern: seq<Byte>, subject: seq<Byte>)
    requires pattern != [] && pattern[0] == STAR
    ensures InLanguage(pattern, subject) <==>
            InLanguage(pattern[1..], subject) || (subject != [] && InLanguage(pattern, subject[1..]))
  {
    assert subject[0..] == subject;
    if InLanguage(pattern, subject) {
      var k :| 0 <= k <= |subject| && InLanguage(pattern[1..], subject[k..]);
      if k > 0 {
        assert subject[1..][k - 1..] == subject[k..];
      }
    }
    if subject != [] && InLanguage(pattern, subject[1..]) {
      var k :| 0 <= k <= |subject| - 1 && InLanguage(pattern[1..], subject[1..][k..]);
      assert subject[1..][k..] == subject[k + 1..];
    }
  }

  /** What a leading `*` accepts after skipping bytes it also accepts without. */
  lemma StarAbsorbs(pattern: seq<Byte>, subject: seq<Byte>, k: nat)
    requires pattern != [] && pattern[0] == STAR
    requires k <= |subject| && InLanguage(pattern, subject[k..])
    ensures InLanguage(pattern, subject)
  {
    var j :| 0 <= j <= |subject[k..]| && InLanguage(pattern[1..], subject[k..][j..]);
    assert subject[k..][j..] == subject[k + j..];
  }

  /** A prefix of the pattern without `*` consumes exactly its own length. */
  lemma {:induction false} StarFreePrefix(pattern: seq<Byte>, n: nat, subject: seq<Byte>)
    requires n <= |pattern| && STAR !in pattern[..n]
    requires InLanguage(pattern, subject)
    ensures n <= |subject| && InLanguage(pattern[n..], subject[n..])
    decreases n
  {
    if n == 0 {
      assert pattern[0..] == pattern && subject[0..] == subject;
    } else {
      assert pattern[..n][0] == pattern[0];
      assert pattern[1..][..n - 1] == pattern[..n][1..];
      StarFreePrefix(pattern[1..], n - 1, subject[1..]);
      assert pattern[1..][n - 1..] == pattern[n..];
      assert subject[1..][n - 1..] == subject[n..];
    }
  }

  /** What remains to be matched from position `px` of the pattern and `sx` of the subject. */
  ghost predicate At(pattern: seq<Byte>, px: nat, subject: seq<Byte>, sx: nat)
    requires px <= |pattern| && sx <= |subject|
  {
    InLanguage(pattern[px..], subject[sx..])
  }

  lemma AtStart(pattern: seq<Byte>, subject: seq<Byte>)
    ensures At(pattern, 0, subject, 0) <==> InLanguage(pattern, subject)
  {
    assert pattern[0..] == pattern && subject[0..] == subject;
  }

  lemma Unfold(pattern: seq<Byte>, px: nat, subject: seq<Byte>, sx: nat)
    requires px <= |pattern| && sx <= |subject|
    ensures px == |pattern| ==> (At(pattern, px, subject, sx) <==> sx == |subject|)
    ensures px < |pattern| && pattern[px] == STAR ==>
      (At(pattern, px, subject, sx) <==>
       At(pattern, px + 1, subject, sx) || (sx < |subject| && At(pattern, px, subject, sx + 1)))
    ensures px < |pattern| && pattern[px] != STAR ==>
      (At(pattern, px, subject, sx) <==>
       sx < |subject| && (pattern[px] == QUESTION || pattern[px] == subject[sx]) &&
       At(pattern, px + 1, subject, sx + 1))
  {
    var restP, restS := pattern[px..], subject[sx..];
    if px < |pattern| {
      assert restP[1..] == pattern[px + 1..];
      if sx < |subject| {
        assert restS[1..] == subject[sx + 1..];
      }
      if pattern[px] == STAR {
        StarStep(restP, restS);
      }
    }
  }

  /** Why one backtrack point is enough: once the pattern reaches a new `*` at
      `px`, whatever the older `*` at `q` could still achieve from `from` on,
      the new one achieves from the current subject position. */
  lemma LastStarSuffices(pattern: seq<Byte>, q: nat, px: nat, subject: seq<Byte>, from: nat, sx: nat)
    requires q < px < |pattern| && pattern[q] == STAR && pattern[px] == STAR
    requires STAR !in pattern[q + 1..px]
    requires 0 < from <= |subject| && sx <= |subject|
    requires sx + 1 == from + (px - q - 1)
    requires At(pattern, q, subject, from)
    ensures At(pattern, px, subject, sx)
  {
    var rest := pattern[q + 1..];
    assert pattern[q..][1..] == rest;
    var k :| 0 <= k <= |subject[from..]| && InLanguage(rest, subject[from..][k..]);
    var n := px - q - 1;
    assert rest[..n] == pattern[q + 1..px];
    StarFreePrefix(rest, n, subject[from..][k..]);
    assert rest[n..] == pattern[px..];
    var landed := from + k + n;
    assert subject[from..][k..][n..] == subject[landed..] == subject[sx..][landed - sx..];
    StarAbsorbs(pattern[px..], subject[sx..], landed - sx);
  }

  /** The language is made up from single bytes: `*` matches any subject, `?` any
      one byte, and every other byte itself. */
  lemma SinglePattern(b: Byte, subject: seq<Byte>)
    ensures InLanguage([b], subject) <==>
      b == 42 || (|subject| == 1 && (b == 63 || subject[0] == b))
  {
    assert [b][1..] == [];
    if b == STAR {
      assert subject[|subject|..] == [];
    }
  }

  /** Patterns one after the other match subjects one after the other. */
  lemma {:induction false} PatternsConcatenate(first: seq<Byte>, second: seq<Byte>, subject: seq<Byte>)
    ensures InLanguage(first + second, subject) <==>
      exists k :: 0 <= k <= |subject| && InLanguage(first, subject[..k]) && InLanguage(second, subject[k..])
    decreases |first|, |subject|
  {
    var both, tail := first + second, first[if first == [] then 0 else 1..];
    if first == [] {
      assert both == second && subject[0..] == subject && subject[..0] == [];
    } else {
      assert both[1..] == tail + second && both[0] == first[0];
      if first[0] == STAR {
        StarStep(both, subject);
        PatternsConcatenate(tail, second, subject);
        if subject != [] {
          PatternsConcatenate(first, second, subject[1..]);
        }
        StarConcatenates(first, second, subject);
      } else if subject != [] {
        PatternsConcatenate(tail, second, subject[1..]);
        ByteConcatenates(first, second, subject);
      }
    }
  }

  lemma StarConcatenates(first: seq<Byte>, second: seq<Byte>, subject: seq<Byte>)
    requires first != [] && first[0] == STAR
    ensures (exists k :: 0 <= k <= |subject| && InLanguage(first, subject[..k]) && InLanguage(second, subject[k..])) <==>
      || (exists k :: 0 <= k <= |subject| && InLanguage(first[1..], subject[..k]) && InLanguage(second, subject[k..]))
      || (subject != [] &&
          exists k :: 0 <= k <= |subject| - 1 && InLanguage(first, subject[1..][..k]) && InLanguage(second, subject[1..][k..]))
  {
    forall k | 0 <= k <= |subject|
      ensures InLanguage(first, subject[..k]) <==>
        InLanguage(first[1..], subject[..k]) || (k > 0 && InLanguage(first, subject[1..][..k - 1]))
      ensures k > 0 ==> subject[k..] == subject[1..][k - 1..]
    {
      StarStep(first, subject[..k]);
      assert k > 0 ==> subject[..k][1..] == subject[1..][..k - 1];
    }
    if subject != [] {
      forall k | 0 <= k <= |subject[1..]| && InLanguage(first, subject[1..][..k]) && InLanguage(second, subject[1..][k..])
        ensures InLanguage(first, subject[..k + 1]) && InLanguage(second, subject[k + 1..])
      {
        assert subject[1..][..k + 1 - 1] == subject[1..][..k];
      }
    }
  }

  lemma ByteConcatenates(first: seq<Byte>, second: seq<Byte>, subject: seq<Byte>)
    requires first != [] && first[0] != STAR && subject != []
    ensures (exists k :: 0 <= k <= |subject| && InLanguage(first, subject[..k]) && InLanguage(second, subject[k..])) <==>
      && (first[0] == QUESTION || first[0] == subject[0])
      && exists k :: 0 <= k <= |subject[1..]| &&
           InLanguage(first[1..], subject[1..][..k]) && InLanguage(second, subject[1..][k..])
  {
    forall k | 0 < k <= |subject|
      ensures InLanguage(first, subject[..k]) <==>
        (first[0] == QUESTION || first[0] == subject[0]) && InLanguage(first[1..], subject[1..][..k - 1])
      ensures subject[k..] == subject[1..][k - 1..]
    {
      assert subject[..k][1..] == subject[1..][..k - 1];
    }
    if first[0] == QUESTION || first[0] == subject[0] {
      forall k | 0 <= k <= |subject[1..]| && InLanguage(first[1..], subject[1..][..k]) && InLanguage(second, subject[1..][k..])
        ensures InLanguage(first, subject[..k + 1]) && InLanguage(second, subject[k + 1..])
      {
        assert subject[1..][..k + 1 - 1] == subject[1..][..k];
      }
    }
  }

  /** The exact-match short circuit is sound even for patterns with wildcards. */
  lemma {:induction false} MatchesItself(pattern: seq<Byte>)
    ensures InLanguage(pattern, pattern)
    decreases |pattern|
  {
    if pattern != [] {
      MatchesItself(pattern[1..]);
      if pattern[0] == STAR {
        assert InLanguage(pattern[1..], pattern[1..]);
      }
    }
  }

  /** The no-wildcard short circuit: such a pattern accepts only itself. */
  lemma {:induction false} LiteralPattern(pattern: seq<Byte>, subject: seq<Byte>)
    requires !HasWildcard(pattern)
    ensures InLanguage(pattern, subject) <==> pattern == subject
    decreases |pattern|
  {
    if pattern != [] && subject != [] {
      assert pattern[0] in pattern;
      assert forall b :: b in pattern[1..] ==> b in pattern;
      LiteralPattern(pattern[1..], subject[1..]);
      assert pattern == [pattern[0]] + pattern[1..] && subject == [subject[0]] + subject[1..];
    } else if pattern != [] {
      assert pattern[0] in pattern;
    }
  }

  /** The `"*"` short circuit: that pattern accepts everything. */
  lemma LoneStar(subject: seq<Byte>)
    ensures InLanguage([STAR], subject)
  {
    assert [STAR][1..] == [] && subject[|subject|..] == [];
    assert InLanguage([STAR][1..], subject[|subject|..]);
  }

  /** `passes` passes over a pattern, `width` iterations each. */
  ghost function Budget(passes: nat, width: nat): nat {
    if passes == 0 then 0 else Budget(passes - 1, width) + width
  }

  lemma {:induction false} BudgetIsProduct(passes: nat, width: nat)
    ensures Budget(passes, width) == passes * width
  {
    if passes > 0 {
      BudgetIsProduct(passes - 1, width);
    }
  }

  lemma {:induction false} BudgetGrows(few: nat, many: nat, width: nat)
    requires few <= many
    ensures Budget(few, width) <= Budget(many, width)
    decreases many
  {
    if few < many {
      BudgetGrows(few, many - 1, width);
    }
  }

  /** The backtracking loop decides the glob language, within one pass over the
      pattern for each subject position. */
  method Backtrack(pattern: seq<Byte>, subject: seq<Byte>) returns (matched: bool, ghost steps: nat)
    ensures matched <==> InLanguage(pattern, subject)
    ensures steps <= (|subject| + 1) * (|pattern| + 1)
  {
    hide At, InLanguage;
    var px, sx, nextPx, nextSx := 0, 0, 0, 0;
    steps := 0;
    ghost var width := |pattern| + 1;
    ghost var resumed := 0;  // where the last backtrack resumed in the subject
    AtStart(pattern, subject);
    while px < |pattern| || sx < |subject|
      invariant px <= |pattern| && sx <= |subject|
      invariant 0 < nextSx ==> nextPx < |pattern| && pattern[nextPx] == STAR && nextPx <= px
      invariant 0 < nextSx && nextPx == px ==> sx == nextSx == resumed
      invariant 0 < nextSx && nextPx < px ==>
        sx + 1 == nextSx + (px - nextPx - 1) && STAR !in pattern[nextPx + 1..px] && resumed < nextSx
      invariant InLanguage(pattern, subject) <==>
        At(pattern, px, subject, sx) ||
        (0 < nextSx <= |subject| && At(pattern, nextPx, subject, nextSx))
      invariant resumed <= sx && (nextSx == 0 ==> resumed == 0)
      invariant steps <= Budget(resumed, width) + px
      decreases |subject| - resumed, |pattern| - px
    {
      steps := steps + 1;
      Unfold(pattern, px, subject, sx);
      if px < |pattern| {
        var c := pattern[px];
        if c == QUESTION {
          if sx < |subject| {
            px, sx := px + 1, sx + 1;
            continue;
          }
        } else if c == STAR {
          if 0 < nextSx <= |subject| && nextPx < px && At(pattern, nextPx, subject, nextSx) {
            LastStarSuffices(pattern, nextPx, px, subject, nextSx, sx);
          }
          nextPx, nextSx := px, sx + 1;
          px := px + 1;
          continue;
        } else if sx < |subject| && subject[sx] == c {
          px, sx := px + 1, sx + 1;
          continue;
        }
      }
      if 0 < nextSx <= |subject| {
        BudgetGrows(resumed + 1, nextSx, width);
        px, sx := nextPx, nextSx;
        resumed := nextSx;
        continue;
      }
      BudgetGrows(resumed, |subject|, width);
      BudgetIsProduct(|subject| + 1, width);
      return false, steps;
    }
    Unfold(pattern, px, subject, sx);
    BudgetGrows(resumed, |subject|, width);
    BudgetIsProduct(|subject| + 1, width);
    return true, steps;
  }

  datatype Entry = Entry(subject: seq<Byte>, answer: bool)
  datatype Lookup = Hit(answer: bool) | Miss

  /** The entry of a subject in a cache listed from the most to the least recently used. */
  function Find(cache: seq<Entry>, subject: seq<Byte>): (r: Lookup)
    ensures r.Hit? ==> Entry(subject, r.answer) in cache
    ensures r.Miss? <==> forall e :: e in cache ==> e.subject != subject
  {
    if cache == [] then Miss
    else if cache[0].subject == subject then Hit(cache[0].answer)
    else Find(cache[1..], subject)
  }

  function Without(cache: seq<Entry>, subject: seq<Byte>): (r: seq<Entry>)
    ensures |r| <= |cache|
    ensures forall e :: e in r <==> e in cache && e.subject != subject
  {
    if cache == [] then []
    else if cache[0].subject == subject then Without(cache[1..], subject)
    else [cache[0]] + Without(cache[1..], subject)
  }

  /** One use of a subject: its entry comes first, and the least recently used
      entry goes when there is no room left. */
  function Used(cache: seq<Entry>, subject: seq<Byte>, answer: bool): (r: seq<Entry>)
    ensures |r| <= CACHE_CAPACITY && r != [] && r[0] == Entry(subject, answer)
    ensures forall e :: e in r ==> e == Entry(subject, answer) || (e in cache && e.subject != subject)
    ensures |cache| < CACHE_CAPACITY ==> forall e :: e in cache && e.subject != subject ==> e in r
  {
    var all := [Entry(subject, answer)] + Without(cache, subject);
    if |all| <= CACHE_CAPACITY then all else all[..CACHE_CAPACITY]
  }

  ghost predicate Truthful(pattern: seq<Byte>, cache: seq<Entry>) {
    && |cache| <= CACHE_CAPACITY
    && forall e :: e in cache ==> (e.answer <==> InLanguage(pattern, e.subject))
  }

  /** A matcher: the lower-cased pattern, and the cache that its mutex guards. */
  class GlobMatcher {
    const pattern: seq<Byte>
    var cache: seq<Entry>

    ghost predicate Valid()
      reads this
    {
      Truthful(pattern, cache)
    }

    constructor (pattern: seq<Byte>)
      ensures Valid() && this.pattern == pattern && cache == []
    {
      this.pattern := pattern;
      cache := [];
    }

    /** A copy shares the pattern and starts with an empty cache of its own. */
    method Clone() returns (copy: GlobMatcher)
      ensures fresh(copy) && copy.Valid() && copy.pattern == pattern && copy.cache == []
    {
      copy := new GlobMatcher(pattern);
    }

    /** First critical section: consult the cache, which counts as a use. */
    method Consult(subject: seq<Byte>) returns (found: Lookup)
      requires Valid()
      modifies this
      ensures Valid() && found == Find(old(cache), subject)
      ensures cache == if found.Hit? then Used(old(cache), subject, found.answer) else old(cache)
    {
      found := Find(cache, subject);
      if found.Hit? {
        cache := Used(cache, subject, found.answer);
      }
    }

    /** Second critical section: remember a computed answer. The cache may have
        changed since it was consulted. */
    method Remember(subject: seq<Byte>, answer: bool)
      requires Valid() && (answer <==> InLanguage(pattern, subject))
      modifies this
      ensures Valid() && cache == Used(old(cache), subject, answer)
    {
      cache := Used(cache, subject, answer);
    }

    /** Whatever earlier calls left in the cache, the answer is the one of the
        glob language. Only answers found by backtracking are ever cached. */
    method Matches(subject: seq<Byte>) returns (matched: bool)
      requires Valid()
      modifies this
      ensures Valid()
      ensures matched <==> InLanguage(pattern, subject)
      ensures cache == if pattern == [STAR] || pattern == subject || !HasWildcard(pattern)
                       then old(cache)
                       else Used(old(cache), subject, matched)
    {
      if pattern == [STAR] {
        LoneStar(subject);
        return true;
      }
      if pattern == subject {
        MatchesItself(pattern);
        return true;
      }
      if !HasWildcard(pattern) {
        LiteralPattern(pattern, subject);
        return false;
      }
      var found := Consult(subject);
      if found.Hit? {
        return found.answer;
      }
      ghost var steps;
      matched, steps := Backtrack(pattern, subject);
      Remember(subject, matched);
    }
  }

  /** What a cache sees over time: uses of subjects by callers of this matcher,
      in any order and from any number of threads, each either repeating a
      cached answer or remembering a computed one. */
  ghost predicate CacheHistory(pattern: seq<Byte>, caches: seq<seq<Entry>>) {
    && caches != [] && caches[0] == []
    && forall i :: 0 < i < |caches| ==> CacheStep(pattern, caches[i - 1], caches[i])
  }

  ghost predicate CacheStep(pattern: seq<Byte>, before: seq<Entry>, after: seq<Entry>) {
    exists subject, answer ::
      && after == Used(before, subject, answer)
      && (Find(before, subject) == Hit(answer) || (answer <==> InLanguage(pattern, subject)))
  }

  /** However consultations and insertions interleave, no history of the cache
      ever holds a wrong answer or more than its capacity. */
  lemma {:induction false} CacheStaysTruthful(pattern: seq<Byte>, caches: seq<seq<Entry>>)
    requires CacheHistory(pattern, caches)
    ensures forall i :: 0 <= i < |caches| ==> Truthful(pattern, caches[i])
    decreases |caches|
  {
    if |caches| > 1 {
      var n := |caches| - 1;
      CacheStaysTruthful(pattern, caches[..n]);
      assert CacheStep(pattern, caches[n - 1], caches[n]);
      assert caches[n - 1] == caches[..n][n - 1];
    }
  }

  // ----- The cache is least recently used -----

  /** The cache after subjects were used, oldest first. */
  function CacheAfter(uses: seq<Entry>): seq<Entry>
    decreases |uses|
  {
    if uses == [] then []
    else
      var last := uses[|uses| - 1];
      Used(CacheAfter(uses[..|uses| - 1]), last.subject, last.answer)
  }

  /** Every subject once, the one used last first: a cache without a capacity. */
  function ByRecency(uses: seq<Entry>): seq<Entry>
    decreases |uses|
  {
    if uses == [] then []
    else
      var last := uses[|uses| - 1];
      [last] + Without(ByRecency(uses[..|uses| - 1]), last.subject)
  }

  function Top(entries: seq<Entry>): seq<Entry> {
    if |entries| <= CACHE_CAPACITY then entries else entries[..CACHE_CAPACITY]
  }

  ghost predicate Distinct(entries: seq<Entry>) {
    forall i, j :: 0 <= i < j < |entries| ==> entries[i].subject != entries[j].subject
  }

  function Removed(entries: seq<Entry>, p: nat): seq<Entry> {
    if p < |entries| then entries[..p] + entries[p + 1..] else entries
  }

  /** The subject occurs at this position only, or not at all if that is the end. */
  ghost predicate OnlyAt(entries: seq<Entry>, subject: seq<Byte>, p: nat) {
    && p <= |entries|
    && forall i :: 0 <= i < |entries| ==> (entries[i].subject == subject <==> i == p)
  }

  lemma {:induction false} WithoutAt(entries: seq<Entry>, subject: seq<Byte>, p: nat)
    requires OnlyAt(entries, subject, p)
    ensures Without(entries, subject) == Removed(entries, p)
  {
    if entries != [] {
      var rest := entries[1..];
      assert forall i :: 0 <= i < |rest| ==> rest[i] == entries[i + 1];
      if p == 0 {
        WithoutAt(rest, subject, |rest|);
      } else {
        WithoutAt(rest, subject, p - 1);
        InFront(entries, p);
      }
    }
  }

  lemma InFront(entries: seq<Entry>, p: nat)
    requires entries != [] && 0 < p <= |entries|
    ensures [entries[0]] + Removed(entries[1..], p - 1) == Removed(entries, p)
  {
  }

  lemma PositionOf(entries: seq<Entry>, subject: seq<Byte>) returns (p: nat)
    requires Distinct(entries)
    ensures OnlyAt(entries, subject, p)
  {
    if i :| 0 <= i < |entries| && entries[i].subject == subject {
      p := i;
    } else {
      p := |entries|;
    }
  }

  lemma {:induction false} EachOnce(uses: seq<Entry>)
    ensures Distinct(ByRecency(uses))
    decreases |uses|
  {
    if uses != [] {
      var init, last := uses[..|uses| - 1], uses[|uses| - 1];
      EachOnce(init);
      UseKeepsDistinct(ByRecency(init), last);
    }
  }

  lemma UseKeepsDistinct(before: seq<Entry>, use: Entry)
    requires Distinct(before)
    ensures Distinct([use] + Without(before, use.subject))
  {
    hide Without;
    var p := PositionOf(before, use.subject);
    WithoutAt(before, use.subject, p);
  }

  lemma TopAfterUse(entries: seq<Entry>, use: Entry)
    requires Distinct(entries)
    ensures Used(Top(entries), use.subject, use.answer) == Top([use] + Without(entries, use.subject))
  {
    hide Without, Distinct, Removed;
    var p := PositionOf(entries, use.subject);
    var q := if p < CACHE_CAPACITY then p else |Top(entries)|;
    WithoutAt(entries, use.subject, p);
    WithoutAt(Top(entries), use.subject, q);
    TopOfRemoved(entries, use, p);
  }

  lemma TopOfRemoved(entries: seq<Entry>, use: Entry, p: nat)
    requires p <= |entries|
    ensures var q := if p < CACHE_CAPACITY then p else |Top(entries)|;
      Top([use] + Removed(Top(entries), q)) == Top([use] + Removed(entries, p))
  {
    var q := if p < CACHE_CAPACITY then p else |Top(entries)|;
    var a, b := Removed(Top(entries), q), Removed(entries, p);
    RemovedAt(Top(entries), q);
    RemovedAt(entries, p);
    var n := if |b| < CACHE_CAPACITY then |b| else CACHE_CAPACITY - 1;
    assert a[..n] == b[..n];
    assert Top([use] + a) == [use] + a[..n] && Top([use] + b) == [use] + b[..n];
  }

  lemma RemovedAt(entries: seq<Entry>, p: nat)
    requires p <= |entries|
    ensures var r := Removed(entries, p);
      && |r| == (if p < |entries| then |entries| - 1 else |entries|)
      && forall i :: 0 <= i < |r| ==> r[i] == if i < p then entries[i] else entries[i + 1]
  {
  }

  /** The cache holds the 256 subjects that were used last, most recent first. */
  lemma {:induction false} CacheIsMostRecent(uses: seq<Entry>)
    ensures CacheAfter(uses) == Top(ByRecency(uses))
    decreases |uses|
  {
    if uses != [] {
      var init := uses[..|uses| - 1];
      CacheIsMostRecent(init);
      EachOnce(init);
      TopAfterUse(ByRecency(init), uses[|uses| - 1]);
    }
  }

  /** The subjects that were used after use `i`. */
  ghost function UsedSince(uses: seq<Entry>, i: nat): set<seq<Byte>> {
    set j | i < j < |uses| :: uses[j].subject
  }

  ghost function Subjects(entries: seq<Entry>): set<seq<Byte>> {
    set i | 0 <= i < |entries| :: entries[i].subject
  }

  lemma {:induction false} SubjectsCount(entries: seq<Entry>)
    requires Distinct(entries)
    ensures |Subjects(entries)| == |entries|
    decreases |entries|
  {
    if entries == [] {
      assert Subjects(entries) == {};
    } else {
      var n := |entries| - 1;
      SubjectsCount(entries[..n]);
      assert Subjects(entries) == Subjects(entries[..n]) + {entries[n].subject};
    }
  }

  lemma SinceStep(uses: seq<Entry>, i: nat)
    requires i + 1 < |uses|
    ensures UsedSince(uses, i) == UsedSince(uses[..|uses| - 1], i) + {uses[|uses| - 1].subject}
  {
    var n := |uses| - 1;
    assert forall j :: 0 <= j < n ==> uses[..n][j] == uses[j];
  }

  lemma NoneSince(uses: seq<Entry>)
    requires uses != []
    ensures UsedSince(uses, |uses| - 1) == {} == Subjects([])
  {
  }

  lemma UseInFront(before: seq<Entry>, use: Entry, m: nat) returns (p: nat)
    requires Distinct(before) && m < |before| && before[m].subject != use.subject
    ensures var after := [use] + Without(before, use.subject);
      p < |after| && after[p] == before[m] && Subjects(after[..p]) == Subjects(before[..m]) + {use.subject}
  {
    hide Without, Distinct, Subjects;
    var k := PositionOf(before, use.subject);
    WithoutAt(before, use.subject, k);
    p := if k < m then m else m + 1;
    FrontOf(before, use, k, m);
    SameSubjects(([use] + Removed(before, k))[..p], before[..m], use.subject);
  }

  lemma FrontOf(before: seq<Entry>, use: Entry, k: nat, m: nat)
    requires OnlyAt(before, use.subject, k) && k != m < |before|
    ensures var after, p := [use] + Removed(before, k), if k < m then m else m + 1;
      && p < |after| && after[p] == before[m]
      && (forall e :: e in after[..p] ==> e.subject == use.subject || e in before[..m])
      && (forall e :: e in before[..m] ==> e.subject == use.subject || e in after[..p])
      && use in after[..p]
  {
    var after, p := [use] + Removed(before, k), if k < m then m else m + 1;
    assert after[..p][0] == use;
    if k < m {
      assert before[..m] == before[..k] + [before[k]] + before[k + 1..m];
      assert after[..p] == [use] + (before[..k] + before[k + 1..m]);
    } else {
      assert after[..p] == [use] + before[..m];
    }
  }

  lemma SameSubjects(a: seq<Entry>, b: seq<Entry>, extra: seq<Byte>)
    requires forall e :: e in b ==> e.subject == extra || e in a
    requires forall e :: e in a ==> e.subject == extra || e in b
    requires exists e :: e in a && e.subject == extra
    ensures Subjects(a) == Subjects(b) + {extra}
  {
    forall s ensures s in Subjects(a) <==> s in Subjects(b) + {extra} {
      if s in Subjects(a) {
        var i :| 0 <= i < |a| && a[i].subject == s;
        assert a[i] in a;
      }
      if s in Subjects(b) {
        var i :| 0 <= i < |b| && b[i].subject == s;
        assert b[i] in b;
      }
    }
  }

  lemma {:induction false} StandsBehind(uses: seq<Entry>, i: nat) returns (p: nat)
    requires i < |uses| && uses[i].subject !in UsedSince(uses, i)
    ensures p < |ByRecency(uses)| && ByRecency(uses)[p] == uses[i]
    ensures Subjects(ByRecency(uses)[..p]) == UsedSince(uses, i)
    decreases |uses|
  {
    hide Without, Distinct, UsedSince, Subjects;
    var n := |uses| - 1;
    if i == n {
      p := 0;
      NoneSince(uses);
      assert ByRecency(uses)[..0] == [];
    } else {
      SinceStep(uses, i);
      var m := StandsBehind(uses[..n], i);
      EachOnce(uses[..n]);
      p := UseInFront(ByRecency(uses[..n]), uses[n], m);
    }
  }

  /** A subject is found in the cache exactly if fewer than 256 other subjects have
      been used since it was used last, with the answer of that use. */
  lemma CachedExactly(uses: seq<Entry>, i: nat)
    requires i < |uses| && uses[i].subject !in UsedSince(uses, i)
    ensures Find(CacheAfter(uses), uses[i].subject) ==
      if |UsedSince(uses, i)| < 256 then Hit(uses[i].answer) else Miss
  {
    hide Find, ByRecency, CacheAfter, Subjects, UsedSince, Distinct, Top;
    var entries := ByRecency(uses);
    CacheIsMostRecent(uses);
    EachOnce(uses);
    var p := StandsBehind(uses, i);
    DistinctParts(entries, p);
    SubjectsCount(entries[..p]);
    FoundAt(Top(entries), uses[i], p);
    if p >= 256 {
      NotFound(entries, uses[i], p);
    }
  }

  lemma DistinctParts(entries: seq<Entry>, p: nat)
    requires Distinct(entries) && p < |entries|
    ensures Distinct(entries[..p]) && Distinct(Top(entries))
    ensures p < 256 ==> p < |Top(entries)| && Top(entries)[p] == entries[p]
  {
  }

  lemma FoundAt(entries: seq<Entry>, use: Entry, p: nat)
    requires Distinct(entries)
    ensures p < |entries| && entries[p] == use ==> Find(entries, use.subject) == Hit(use.answer)
  {
    if p < |entries| && entries[p] == use {
      var found := Find(entries, use.subject);
      assert entries[p] in entries;
      var q :| 0 <= q < |entries| && entries[q] == Entry(use.subject, found.answer);
      assert q == p;
    }
  }

  lemma NotFound(entries: seq<Entry>, use: Entry, p: nat)
    requires Distinct(entries) && 256 <= p < |entries| && entries[p] == use
    ensures Find(Top(entries), use.subject) == Miss
  {
    forall e | e in Top(entries) ensures e.subject != use.subject {
      var q :| 0 <= q < 256 && entries[q] == e;
    }
  }
}
