/** Seed almanac (d05/src/main.rs): seven range maps applied one after the
    other, and the seed scan that skips ahead by the largest distance over
    which every map translates by a fixed offset. */
module Almanac {
  import opened Wrappers

  /** `usize::MAX` on a 64-bit target: the "no range ahead" jump and the
      starting minimum. */
  const UsizeMax: nat := 0xFFFF_FFFF_FFFF_FFFF

  /** One line of a map: `len` sources from `src` go to `dest` onwards. */
  datatype Range = Range(dest: nat, src: nat, len: nat)

  /** Why the program panics: a map is missing, a map is empty and the
      minimum over its ranges is unwrapped, or the first line holds no seed
      pair and the minimum over the pairs is unwrapped. */
  datatype Panic = MissingMap | EmptyMap | NoSeedPairs

  type Maps = map<string, seq<Range>>

  predicate Contains(r: Range, x: nat)
  {
    r.src <= x < r.src + r.len
  }

  /** The index of the first range containing `x` (`Iterator::find`). */
  function FindRange(rs: seq<Range>, x: nat): (r: Option<nat>)
    ensures r.Some? ==> r.value < |rs| && Contains(rs[r.value], x)
  {
    if rs == [] then None
    else if Contains(rs[0], x) then Some(0)
    else
      match FindRange(rs[1..], x)
      case None => None
      case Some(i) => Some(i + 1)
  }

  /** `FindRange` answers the first range containing `x`, and nothing
      exactly when no range contains it. */
  lemma {:induction false} FindRangeIsFirst(rs: seq<Range>, x: nat)
    ensures FindRange(rs, x).Some? ==> forall j :: 0 <= j < FindRange(rs, x).value ==> !Contains(rs[j], x)
    ensures FindRange(rs, x).None? <==> forall j :: 0 <= j < |rs| ==> !Contains(rs[j], x)
  {
    if rs != [] && !Contains(rs[0], x) {
      FindRangeIsFirst(rs[1..], x);
      assert forall j :: 1 <= j < |rs| ==> rs[j] == rs[1..][j - 1];
    }
  }

  /** The distance from `x` to range `r` when `r` lies ahead, else `usize::MAX`. */
  function Gap(r: Range, x: nat): nat
  {
    if x >= r.src then UsizeMax else r.src - x
  }

  /** The smallest gap from `x` to the ranges of a non-empty map. */
  function MinGap(rs: seq<Range>, x: nat): (g: nat)
    requires rs != []
    ensures g >= 1
  {
    if |rs| == 1 then Gap(rs[0], x)
    else Min(Gap(rs[0], x), MinGap(rs[1..], x))
  }

  /** `MinGap` is the least of the gaps, and one of them. */
  lemma {:induction false} MinGapIsMin(rs: seq<Range>, x: nat)
    requires rs != []
    ensures forall i :: 0 <= i < |rs| ==> MinGap(rs, x) <= Gap(rs[i], x)
    ensures exists i :: 0 <= i < |rs| && MinGap(rs, x) == Gap(rs[i], x)
  {
    if |rs| == 1 {
      assert MinGap(rs, x) == Gap(rs[0], x);
    } else {
      MinGapIsMin(rs[1..], x);
      var i :| 0 <= i < |rs| - 1 && MinGap(rs[1..], x) == Gap(rs[1..][i], x);
      if Gap(rs[0], x) <= MinGap(rs[1..], x) {
        assert MinGap(rs, x) == Gap(rs[0], x);
      } else {
        assert MinGap(rs, x) == Gap(rs[i + 1], x);
      }
      forall j | 1 <= j < |rs|
        ensures MinGap(rs, x) <= Gap(rs[j], x)
      {
        assert rs[j] == rs[1..][j - 1];
      }
    }
  }

  /** One map applied to `x`: the mapped value and how far `x` may advance
      while the map still translates it by the same offset. */
  function Lookup(rs: seq<Range>, x: nat): (r: Result<(nat, nat), Panic>)
    ensures r.Err? <==> rs == []
    ensures r.Err? ==> r.error == EmptyMap
    ensures r.Ok? ==> r.value.1 >= 1
  {
    match FindRange(rs, x)
    case Some(i) => Ok((rs[i].dest + x - rs[i].src, rs[i].src + rs[i].len - x))
    case None => if rs == [] then Err(EmptyMap) else Ok((x, MinGap(rs, x)))
  }

  /** `get_destination_and_jump`: look the map up by name, then apply it. */
  function DestinationAndJump(maps: Maps, name: string, source: nat): (r: Result<(nat, nat), Panic>)
    ensures name !in maps ==> r == Err(MissingMap)
    ensures name in maps ==> r == Lookup(maps[name], source)
  {
    if name !in maps then Err(MissingMap) else Lookup(maps[name], source)
  }

  /** In the not-found branch no x in `[source, source + jump)` lies in any
      range, so the map sends each of them to itself. */
  lemma NotFoundSkipSafe(rs: seq<Range>, x: nat, y: nat)
    requires FindRange(rs, x).None? && rs != []
    requires x <= y < x + MinGap(rs, x)
    ensures FindRange(rs, y).None?
    ensures Lookup(rs, y).Ok? && Lookup(rs, y).value.0 == y
  {
    FindRangeIsFirst(rs, x);
    MinGapIsMin(rs, x);
    forall j | 0 <= j < |rs|
      ensures !Contains(rs[j], y)
    {
      assert !Contains(rs[j], x) && MinGap(rs, x) <= Gap(rs[j], x);
    }
    FindRangeIsFirst(rs, y);
  }

  /** Two non-empty ranges share a source value. */
  predicate Overlap(a: Range, b: Range)
  {
    a.len > 0 && b.len > 0 && a.src < b.src + b.len && b.src < a.src + a.len
  }

  /** Ranges of one map that do not overlap. */
  ghost predicate Disjoint(rs: seq<Range>)
  {
    forall i, j {:trigger Overlap(rs[i], rs[j])} :: 0 <= i < |rs| && 0 <= j < |rs| && i != j ==> !Overlap(rs[i], rs[j])
  }

  /** With non-overlapping ranges, every x in `[source, source + jump)` in the
      found branch is translated by the same offset `dest - src`. */
  lemma FoundSkipSafe(rs: seq<Range>, x: nat, y: nat)
    requires Disjoint(rs) && FindRange(rs, x).Some?
    requires x <= y < x + Lookup(rs, x).value.1
    ensures FindRange(rs, y) == FindRange(rs, x)
    ensures Lookup(rs, y).Ok? && Lookup(rs, y).value.0 == Lookup(rs, x).value.0 + (y - x)
  {
    var i := FindRange(rs, x).value;
    assert Contains(rs[i], y);
    FindRangeIsFirst(rs, y);
    var k := FindRange(rs, y).value;
    assert k == i || !Overlap(rs[i], rs[k]);
  }

  /** Both branches together: within the jump the map adds a fixed offset. */
  lemma LookupTranslates(rs: seq<Range>, x: nat, d: nat)
    requires Disjoint(rs) && Lookup(rs, x).Ok? && d < Lookup(rs, x).value.1
    ensures Lookup(rs, x + d).Ok? && Lookup(rs, x + d).value.0 == Lookup(rs, x).value.0 + d
  {
    if FindRange(rs, x).Some? {
      FoundSkipSafe(rs, x, x + d);
    } else {
      NotFoundSkipSafe(rs, x, x + d);
    }
  }

  // ---------------------------------------------------------------------
  // The seven stages

  /** The map names, in the order the seed loop applies them. */
  const Stages: seq<string> := [
    "seed-to-soil", "soil-to-fertilizer", "fertilizer-to-water", "water-to-light",
    "light-to-temperature", "temperature-to-humidity", "humidity-to-location"]

  /** The maps named in `names` applied in turn: the final value and the
      smallest of the jumps met on the way. The first failing stage decides
      the error. */
  function Chain(maps: Maps, names: seq<string>, x: nat): (r: Result<(nat, nat), Panic>)
    requires names != []
    ensures r.Ok? ==> r.value.1 >= 1
    ensures r.Err? ==> r.error != NoSeedPairs
    decreases |names|
  {
    var first := DestinationAndJump(maps, names[0], x);
    if first.Err? || |names| == 1 then first
    else
      var rest := Chain(maps, names[1..], first.value.0);
      if rest.Err? then rest else Ok((rest.value.0, Min(first.value.1, rest.value.1)))
  }

  /** Every named map is present and non-empty. */
  ghost predicate Complete(maps: Maps, names: seq<string>)
  {
    forall i :: 0 <= i < |names| ==> names[i] in maps && maps[names[i]] != []
  }

  /** Whether the chain fails does not depend on the value pushed through it. */
  lemma {:induction false} ChainOkIffComplete(maps: Maps, names: seq<string>, x: nat)
    requires names != []
    ensures Chain(maps, names, x).Ok? <==> Complete(maps, names)
    decreases |names|
  {
    if |names| > 1 {
      var first := DestinationAndJump(maps, names[0], x);
      if first.Ok? {
        ChainOkIffComplete(maps, names[1..], first.value.0);
      }
      assert forall i :: 1 <= i < |names| ==> names[i] == names[1..][i - 1];
    }
  }

  ghost predicate AllDisjoint(maps: Maps)
  {
    forall name :: name in maps ==> Disjoint(maps[name])
  }

  /** Within the common jump, every stage adds the same offset, so the
      location grows exactly as fast as the seed. */
  lemma {:induction false} ChainTranslates(maps: Maps, names: seq<string>, x: nat, d: nat)
    requires names != [] && AllDisjoint(maps)
    requires Chain(maps, names, x).Ok? && d < Chain(maps, names, x).value.1
    ensures Chain(maps, names, x + d).Ok?
    ensures Chain(maps, names, x + d).value.0 == Chain(maps, names, x).value.0 + d
    decreases |names|
  {
    var first := DestinationAndJump(maps, names[0], x);
    assert first.Ok? && names[0] in maps;
    var first' := DestinationAndJump(maps, names[0], x + d);
    if |names| == 1 {
      LookupTranslates(maps[names[0]], x, d);
    } else {
      var y := first.value.0;
      var rest := Chain(maps, names[1..], y);
      assert rest.Ok?;
      assert d < first.value.1 && d < rest.value.1;
      LookupTranslates(maps[names[0]], x, d);
      assert first'.Ok? && first'.value.0 == y + d;
      ChainTranslates(maps, names[1..], y, d);
      ChainStep(maps, names, x + d, first', Chain(maps, names[1..], y + d));
    }
  }

  /** One unfolding of `Chain`, with the first stage and the rest named. */
  lemma ChainStep(maps: Maps, names: seq<string>, x: nat, first: Result<(nat, nat), Panic>, rest: Result<(nat, nat), Panic>)
    requires |names| > 1
    requires first == DestinationAndJump(maps, names[0], x) && first.Ok?
    requires rest == Chain(maps, names[1..], first.value.0) && rest.Ok?
    ensures Chain(maps, names, x) == Ok((rest.value.0, Min(first.value.1, rest.value.1)))
  {
  }

  // ---------------------------------------------------------------------
  // The seed scan

  /** The location of `seed`, once every stage is known to succeed. */
  function Location(maps: Maps, names: seq<string>, seed: nat): nat
    requires names != [] && Complete(maps, names)
  {
    ChainOkIffComplete(maps, names, seed);
    Chain(maps, names, seed).value.0
  }

  /** The scan of one seed pair from `seed` up to `end` through the maps
      `names`, with the minimum so far in `acc`. */
  function Scan(maps: Maps, names: seq<string>, seed: nat, end: nat, acc: nat): (r: Result<nat, Panic>)
    requires names != []
    ensures r.Ok? ==> r.value <= acc
    ensures r.Err? ==> r.error != NoSeedPairs
    decreases end - seed
  {
    if seed >= end then Ok(acc)
    else
      var located := Chain(maps, names, seed);
      if located.Err? then Err(located.error)
      else Scan(maps, names, seed + located.value.1, end, Min(acc, located.value.0))
  }

  /** One step of the scan: a failing seed fails it, any other seed
      updates the minimum and moves on by its jump. */
  lemma ScanStep(maps: Maps, names: seq<string>, seed: nat, end: nat, acc: nat, located: Result<(nat, nat), Panic>)
    requires names != [] && seed < end && located == Chain(maps, names, seed)
    ensures located.Err? ==> Scan(maps, names, seed, end, acc) == Err(located.error)
    ensures located.Ok? ==>
      Scan(maps, names, seed, end, acc) == Scan(maps, names, seed + located.value.1, end, Min(acc, located.value.0))
  {
  }

  /** A non-empty scan fails exactly when some stage map is missing or empty. */
  lemma {:induction false} ScanOkIffComplete(maps: Maps, names: seq<string>, seed: nat, end: nat, acc: nat)
    requires names != [] && seed < end
    ensures Scan(maps, names, seed, end, acc).Ok? <==> Complete(maps, names)
    decreases end - seed
  {
    var located := Chain(maps, names, seed);
    ChainOkIffComplete(maps, names, seed);
    ScanStep(maps, names, seed, end, acc, located);
    if located.Ok? && seed + located.value.1 < end {
      ScanOkIffComplete(maps, names, seed + located.value.1, end, Min(acc, located.value.0));
    }
  }

  /** The skipping scan finds the true minimum: with non-overlapping ranges
      it is at most the location of every seed in `[seed, end)` and at most
      `acc`, and it is `acc` or the location of one of those seeds. */
  lemma {:induction false} ScanIsMin(maps: Maps, names: seq<string>, seed: nat, end: nat, acc: nat)
    requires names != [] && Complete(maps, names) && AllDisjoint(maps)
    ensures Scan(maps, names, seed, end, acc).Ok?
    ensures forall s :: seed <= s < end ==> Scan(maps, names, seed, end, acc).value <= Location(maps, names, s)
    ensures Scan(maps, names, seed, end, acc).value == acc ||
      exists s :: seed <= s < end && Scan(maps, names, seed, end, acc).value == Location(maps, names, s)
    decreases end - seed
  {
    if seed < end {
      var located := Chain(maps, names, seed);
      ChainOkIffComplete(maps, names, seed);
      ScanStep(maps, names, seed, end, acc, located);
      var next := seed + located.value.1;
      var acc' := Min(acc, located.value.0);
      ScanIsMin(maps, names, next, end, acc');
      var r := Scan(maps, names, next, end, acc');
      assert Scan(maps, names, seed, end, acc) == r;
      forall s | seed <= s < end
        ensures r.value <= Location(maps, names, s)
      {
        if s < next {
          ChainTranslates(maps, names, seed, s - seed);
        }
      }
      if r.value != acc && r.value == acc' {
        assert r.value == Location(maps, names, seed);
      }
    }
  }

  /** The closure of `main` for one pair: visit seeds from `seedStart`,
      keeping the smallest location, and advance by the smallest jump of
      the maps `names` (the seven `Stages` in `main`). */
  method SeedPairMin(maps: Maps, names: seq<string>, seedStart: nat, seedRange: nat) returns (r: Result<nat, Panic>)
    requires names != []
    ensures r == Scan(maps, names, seedStart, seedStart + seedRange, UsizeMax)
  {
    var minLocation: nat := UsizeMax;
    var seed := seedStart;
    while seed < seedStart + seedRange
      invariant Scan(maps, names, seed, seedStart + seedRange, minLocation) == Scan(maps, names, seedStart, seedStart + seedRange, UsizeMax)
      decreases seedStart + seedRange - seed
    {
      var located := Chain(maps, names, seed);
      ScanStep(maps, names, seed, seedStart + seedRange, minLocation, located);
      if located.Err? {
        return Err(located.error);
      }
      minLocation := Min(minLocation, located.value.0);
      seed := seed + located.value.1;
    }
    return Ok(minLocation);
  }

  // ---------------------------------------------------------------------
  // All seed pairs

  /** A seed pair: the first seed and how many seeds follow it. */
  type SeedPair = (nat, nat)

  /** The minimum over the pairs, taken in order: the first failing pair
      decides the error, and no pair at all is the `unwrap` on an empty
      minimum. */
  function Lowest(maps: Maps, names: seq<string>, pairs: seq<SeedPair>): (r: Result<nat, Panic>)
    requires names != []
    ensures pairs == [] <==> r == Err(NoSeedPairs)
    decreases |pairs|
  {
    if pairs == [] then Err(NoSeedPairs)
    else
      var last := pairs[|pairs| - 1];
      var here := Scan(maps, names, last.0, last.0 + last.1, UsizeMax);
      if |pairs| == 1 then here
      else
        var before := Lowest(maps, names, pairs[..|pairs| - 1]);
        if before.Err? then before
        else if here.Err? then here
        else Ok(Min(before.value, here.value))
  }

  /** The answer for the first pair alone is that pair's scan. */
  lemma LowestFirst(maps: Maps, names: seq<string>, pairs: seq<SeedPair>)
    requires names != [] && pairs != []
    ensures Lowest(maps, names, pairs[..1]) == Scan(maps, names, pairs[0].0, pairs[0].0 + pairs[0].1, UsizeMax)
  {
    assert pairs[..1] == [pairs[0]];
  }

  /** Taking one more pair: a failure so far stays, then a failing pair
      fails, else the minimum absorbs the pair's scan. */
  lemma LowestNext(maps: Maps, names: seq<string>, pairs: seq<SeedPair>, i: nat)
    requires names != [] && 0 < i < |pairs|
    ensures
      var before := Lowest(maps, names, pairs[..i]);
      var here := Scan(maps, names, pairs[i].0, pairs[i].0 + pairs[i].1, UsizeMax);
      Lowest(maps, names, pairs[..i + 1]) ==
        if before.Err? then before else if here.Err? then here else Ok(Min(before.value, here.value))
  {
    assert pairs[..i + 1][..i] == pairs[..i];
  }

  /** Once a prefix of the pairs fails, the whole answer is that failure:
      the pairs after it are never scanned. */
  lemma {:induction false} LowestErrStays(maps: Maps, names: seq<string>, pairs: seq<SeedPair>, i: nat)
    requires names != [] && 0 < i <= |pairs| && Lowest(maps, names, pairs[..i]).Err?
    ensures Lowest(maps, names, pairs) == Lowest(maps, names, pairs[..i])
    decreases |pairs| - i
  {
    if i < |pairs| {
      LowestNext(maps, names, pairs, i);
      LowestErrStays(maps, names, pairs, i + 1);
    } else {
      assert pairs[..i] == pairs;
    }
  }

  /** `s` is one of the seeds the pairs describe. */
  ghost predicate Seeded(pairs: seq<SeedPair>, s: nat)
  {
    exists k :: 0 <= k < |pairs| && pairs[k].0 <= s < pairs[k].0 + pairs[k].1
  }

  /** With every map present, non-empty and free of overlaps, the answer is
      at most the location of every seed the pairs describe. */
  lemma {:induction false} LowestIsLower(maps: Maps, names: seq<string>, pairs: seq<SeedPair>)
    requires names != [] && Complete(maps, names) && AllDisjoint(maps) && pairs != []
    ensures Lowest(maps, names, pairs).Ok?
    ensures forall s :: Seeded(pairs, s) ==> Lowest(maps, names, pairs).value <= Location(maps, names, s)
    decreases |pairs|
  {
    var n := |pairs|;
    var last := pairs[n - 1];
    ScanIsMin(maps, names, last.0, last.0 + last.1, UsizeMax);
    var here := Scan(maps, names, last.0, last.0 + last.1, UsizeMax);
    var r := Lowest(maps, names, pairs);
    if n == 1 {
      assert r == here;
      forall s | Seeded(pairs, s)
        ensures r.value <= Location(maps, names, s)
      {
      }
    } else {
      var init := pairs[..n - 1];
      LowestIsLower(maps, names, init);
      var before := Lowest(maps, names, init);
      assert r == Ok(Min(before.value, here.value));
      forall s | Seeded(pairs, s)
        ensures r.value <= Location(maps, names, s)
      {
        var k :| 0 <= k < n && pairs[k].0 <= s < pairs[k].0 + pairs[k].1;
        if k < n - 1 {
          assert init[k] == pairs[k];
          assert Seeded(init, s);
        }
      }
    }
  }

  /** ... and it is the location of one of those seeds, or `usize::MAX`
      when the pairs hold no seed at all: the true minimum. */
  lemma {:induction false} LowestIsAttained(maps: Maps, names: seq<string>, pairs: seq<SeedPair>)
    requires names != [] && Complete(maps, names) && AllDisjoint(maps) && pairs != []
    ensures Lowest(maps, names, pairs).Ok?
    ensures Lowest(maps, names, pairs).value == UsizeMax ||
      exists s :: Seeded(pairs, s) && Lowest(maps, names, pairs).value == Location(maps, names, s)
    decreases |pairs|
  {
    var n := |pairs|;
    var last := pairs[n - 1];
    ScanIsMin(maps, names, last.0, last.0 + last.1, UsizeMax);
    var here := Scan(maps, names, last.0, last.0 + last.1, UsizeMax);
    var r := Lowest(maps, names, pairs);
    if n == 1 {
      assert r == here;
      if r.value != UsizeMax {
        var s :| last.0 <= s < last.0 + last.1 && here.value == Location(maps, names, s);
        assert Seeded(pairs, s);
      }
    } else {
      var init := pairs[..n - 1];
      LowestIsAttained(maps, names, init);
      var before := Lowest(maps, names, init);
      assert r == Ok(Min(before.value, here.value));
      if r.value != UsizeMax {
        if r.value == here.value {
          var s :| last.0 <= s < last.0 + last.1 && here.value == Location(maps, names, s);
          assert Seeded(pairs, s);
        } else {
          var s :| Seeded(init, s) && before.value == Location(maps, names, s);
          var k :| 0 <= k < n - 1 && init[k].0 <= s < init[k].0 + init[k].1;
          assert pairs[k] == init[k];
          assert Seeded(pairs, s);
        }
      }
    }
  }

  /** A missing or empty map fails the whole answer as soon as one pair
      holds a seed. */
  lemma {:induction false} LowestFailsWhenIncomplete(maps: Maps, names: seq<string>, pairs: seq<SeedPair>, k: nat)
    requires names != [] && !Complete(maps, names)
    requires k < |pairs| && pairs[k].1 > 0
    ensures Lowest(maps, names, pairs).Err?
    decreases |pairs|
  {
    var n := |pairs|;
    var last := pairs[n - 1];
    if k == n - 1 {
      ScanOkIffComplete(maps, names, last.0, last.0 + last.1, UsizeMax);
    } else {
      assert pairs[..n - 1][k] == pairs[k];
      LowestFailsWhenIncomplete(maps, names, pairs[..n - 1], k);
    }
  }

  /** The `map(..).min()` of `main` over the seed pairs, through the maps
      `names`: pairs are scanned in order and the first panic stops it. */
  method AllPairsMin(maps: Maps, names: seq<string>, pairs: seq<SeedPair>) returns (r: Result<nat, Panic>)
    requires names != []
    ensures r == Lowest(maps, names, pairs)
  {
    if pairs == [] {
      return Err(NoSeedPairs);
    }
    var best := SeedPairMin(maps, names, pairs[0].0, pairs[0].1);
    LowestFirst(maps, names, pairs);
    if best.Err? {
      LowestErrStays(maps, names, pairs, 1);
      return best;
    }
    var i := 1;
    while i < |pairs|
      invariant 1 <= i <= |pairs|
      invariant best.Ok? && best == Lowest(maps, names, pairs[..i])
    {
      var here := SeedPairMin(maps, names, pairs[i].0, pairs[i].1);
      LowestNext(maps, names, pairs, i);
      if here.Err? {
        LowestErrStays(maps, names, pairs, i + 1);
        return here;
      }
      best := Ok(Min(best.value, here.value));
      i := i + 1;
    }
    assert pairs[..|pairs|] == pairs;
    return best;
  }

  /** `main`: the scan of every seed pair of the first line through the
      seven stages, and the smallest of the pair minima. */
  method LowestLocation(maps: Maps, pairs: seq<SeedPair>) returns (r: Result<nat, Panic>)
    ensures r == Lowest(maps, Stages, pairs)
  {
    r := AllPairsMin(maps, Stages, pairs);
  }
}
