/** Day 5, part 1: seeds pass through seven range maps in turn, and the
    answer is the smallest location reached (day5p1.rs). */
module Day5 {
  import opened Common
  import opened Text

  /** `u64::MAX`, the starting minimum. */
  const MAX_LOCATION: nat := U64_LIMIT - 1

  /** The number of maps an almanac holds, from seed-to-soil to
      humidity-to-location. */
  const MAP_COUNT: nat := 7

  /** One line of a map: `range` numbers starting at `source` go to the
      numbers starting at `destination`. */
  datatype MapEntry = MapEntry(destination: nat, source: nat, range: nat)

  datatype EntryFault = BadNumber | ShortEntry

  /** The panics of `find_minimum_location`: no seed line, a seed that is
      not a `u64`, a missing map header, a bad map line, and a `u64`
      overflow while translating. */
  datatype AlmanacError = NoInput | BadSeed | MissingMapHeader | BadEntry(line: nat, fault: EntryFault) | Overflow

  // ---------------------------------------------------------------------
  // Translating through one map

  predicate Covers(e: MapEntry, x: nat)
  {
    e.source <= x < e.source + e.range
  }

  /** `grow_seed`: the first entry whose source range holds `x` translates
      it; with none, `x` maps to itself. The test `x < source + range` and
      the translation are `u64` arithmetic, and overflow panics. */
  function Translate(x: nat, entries: seq<MapEntry>): (r: Result<nat, AlmanacError>)
    ensures r.Err? ==> r.error == Overflow
  {
    if entries == [] then Ok(x)
    else
      var e := entries[0];
      if x >= e.source && e.source + e.range >= U64_LIMIT then Err(Overflow)
      else if Covers(e, x) then
        var y := x - e.source + e.destination;
        if y >= U64_LIMIT then Err(Overflow) else Ok(y)
      else Translate(x, entries[1..])
  }

  /** The entry `i` is the first to hold `x`. */
  predicate FirstCover(entries: seq<MapEntry>, x: nat, i: nat)
  {
    i < |entries| && Covers(entries[i], x) && forall j :: 0 <= j < i ==> !Covers(entries[j], x)
  }

  /** Every sum the translation evaluates fits a `u64`. */
  predicate InRange(entries: seq<MapEntry>)
  {
    forall i :: 0 <= i < |entries| ==>
      entries[i].source + entries[i].range < U64_LIMIT && entries[i].destination + entries[i].range <= U64_LIMIT
  }

  /** Without overflow, the first entry holding `x` translates it, and a
      value no entry holds is unchanged; entries that fit a `u64` never
      overflow. */
  lemma {:induction false} TranslateSpec(x: nat, entries: seq<MapEntry>)
    ensures Translate(x, entries).Ok? ==>
      (forall i: nat :: FirstCover(entries, x, i) ==> Translate(x, entries).value == x - entries[i].source + entries[i].destination) &&
      ((forall i :: 0 <= i < |entries| ==> !Covers(entries[i], x)) ==> Translate(x, entries).value == x)
    ensures InRange(entries) ==> Translate(x, entries).Ok?
  {
    if entries != [] {
      var rest := entries[1..];
      TranslateSpec(x, rest);
      forall i: nat | FirstCover(entries, x, i) && i > 0 ensures FirstCover(rest, x, i - 1) {
        forall j | 0 <= j < i - 1 ensures !Covers(rest[j], x) {
          assert rest[j] == entries[j + 1];
        }
      }
      if InRange(entries) {
        assert forall i :: 0 <= i < |rest| ==> rest[i] == entries[i + 1];
      }
    }
  }

  method GrowSeed(seed: nat, entries: seq<MapEntry>) returns (r: Result<nat, AlmanacError>)
    ensures r == Translate(seed, entries)
  {
    var sprout := seed;
    var i := 0;
    while i < |entries|
      invariant i <= |entries|
      invariant Translate(seed, entries) == Translate(seed, entries[i..])
    {
      var e := entries[i];
      assert entries[i..][1..] == entries[i + 1..];
      if seed >= e.source && e.source + e.range >= U64_LIMIT {
        return Err(Overflow);
      }
      if seed >= e.source && seed < e.source + e.range {
        if seed - e.source + e.destination >= U64_LIMIT {
          return Err(Overflow);
        }
        sprout := seed - e.source + e.destination;
        return Ok(sprout);
      }
      i := i + 1;
    }
    return Ok(sprout);
  }

  // ---------------------------------------------------------------------
  // Reading the almanac

  predicate IsBlank(line: string)
  {
    Trim(line) == []
  }

  /** Every token read as a `u64` (`map(parse).unwrap()` over all of them),
      or `None` if one is not. */
  function ParseNumbers(tokens: seq<string>): Option<seq<nat>>
  {
    if tokens == [] then Some([])
    else
      match ParseU64(tokens[0])
      case None => None
      case Some(n) =>
        match ParseNumbers(tokens[1..])
        case None => None
        case Some(ns) => Some([n] + ns)
  }

  /** The numbers are read exactly when every token is a `u64`, and then
      in order. */
  lemma {:induction false} ParseNumbersSpec(tokens: seq<string>)
    ensures var r := ParseNumbers(tokens);
      (r.Some? <==> forall k :: 0 <= k < |tokens| ==> ParseU64(tokens[k]).Some?) &&
      (r.Some? ==> |r.value| == |tokens| && forall k :: 0 <= k < |tokens| ==> ParseU64(tokens[k]) == Some(r.value[k]))
  {
    if tokens != [] {
      ParseNumbersSpec(tokens[1..]);
      assert forall k :: 1 <= k < |tokens| ==> tokens[k] == tokens[1..][k - 1];
    }
  }

  function Numbers(line: string): Option<seq<nat>>
  {
    ParseNumbers(SplitWhitespace(line))
  }

  /** One map line: destination, source and range, in that order; numbers
      after the third are ignored. */
  function EntryOf(line: string): (r: Result<MapEntry, EntryFault>)
  {
    match Numbers(line)
    case None => Err(BadNumber)
    case Some(ns) => if |ns| < 3 then Err(ShortEntry) else Ok(MapEntry(ns[0], ns[1], ns[2]))
  }

  /** What a line after a map header is to `read_map`. */
  datatype LineClass = Blank | Entry(entry: MapEntry) | Bad(fault: EntryFault)

  function ClassOf(line: string): LineClass
  {
    if IsBlank(line) then Blank
    else match EntryOf(line)
      case Err(f) => Bad(f)
      case Ok(e) => Entry(e)
  }

  function Classes(lines: seq<string>): (cs: seq<LineClass>)
    ensures |cs| == |lines|
  {
    if lines == [] then [] else Classes(lines[..|lines| - 1]) + [ClassOf(lines[|lines| - 1])]
  }

  lemma {:induction false} ClassesAt(lines: seq<string>, i: nat)
    requires i < |lines|
    ensures Classes(lines)[i] == ClassOf(lines[i])
  {
    var front := lines[..|lines| - 1];
    if i < |front| {
      ClassesAt(front, i);
    }
  }

  /** The class of line `i`, by the test `read_map` makes first. */
  lemma ClassOfLine(lines: seq<string>, i: nat)
    requires i < |lines|
    ensures IsBlank(lines[i]) ==> Classes(lines)[i] == Blank
    ensures !IsBlank(lines[i]) && EntryOf(lines[i]).Ok? ==> Classes(lines)[i] == Entry(EntryOf(lines[i]).value)
    ensures !IsBlank(lines[i]) && EntryOf(lines[i]).Err? ==> Classes(lines)[i] == Bad(EntryOf(lines[i]).error)
  {
    ClassesAt(lines, i);
  }

  /** The entry lines from `i` up to a blank line or the end of the text,
      and the position after that blank line. */
  function ReadEntries(cs: seq<LineClass>, i: nat): Result<(seq<MapEntry>, nat), AlmanacError>
    requires i <= |cs|
    decreases |cs| - i
  {
    if i == |cs| then Ok(([], i))
    else
      match cs[i]
      case Blank => Ok(([], i + 1))
      case Bad(f) => Err(BadEntry(i, f))
      case Entry(e) =>
        match ReadEntries(cs, i + 1)
        case Err(err) => Err(err)
        case Ok((es, next)) => Ok(([e] + es, next))
  }

  /** `read_map` from line `pos`: the header (whatever it says), then the
      entries. */
  function ReadMapAt(cs: seq<LineClass>, pos: nat): Result<(seq<MapEntry>, nat), AlmanacError>
    requires pos <= |cs|
  {
    if pos == |cs| then Err(MissingMapHeader) else ReadEntries(cs, pos + 1)
  }

  /** The first blank line at or after `i`, or the end of the text. */
  function BlockEnd(cs: seq<LineClass>, i: nat): (e: nat)
    requires i <= |cs|
    ensures i <= e <= |cs|
    ensures forall j :: i <= j < e ==> !cs[j].Blank?
    ensures e < |cs| ==> cs[e].Blank?
    decreases |cs| - i
  {
    if i == |cs| || cs[i].Blank? then i else BlockEnd(cs, i + 1)
  }

  /** A map is the lines up to the first blank line, each read as an
      entry; reading succeeds exactly when each of them is one, and then
      resumes after the blank line. */
  lemma {:induction false} ReadEntriesOk(cs: seq<LineClass>, i: nat)
    requires i <= |cs|
    ensures var end := BlockEnd(cs, i); var r := ReadEntries(cs, i);
      (r.Ok? <==> forall j :: i <= j < end ==> cs[j].Entry?) &&
      (r.Ok? ==>
        |r.value.0| == end - i &&
        (forall k :: 0 <= k < end - i ==> cs[i + k] == Entry(r.value.0[k])) &&
        r.value.1 == if end < |cs| then end + 1 else end)
    decreases |cs| - i
  {
    if i < |cs| && cs[i].Entry? {
      ReadEntriesOk(cs, i + 1);
      var r := ReadEntries(cs, i + 1);
      if r.Ok? {
        var es := [cs[i].entry] + r.value.0;
        assert ReadEntries(cs, i) == Ok((es, r.value.1));
        forall k | 0 <= k < BlockEnd(cs, i) - i ensures cs[i + k] == Entry(es[k]) {
          if k > 0 {
            assert es[k] == r.value.0[k - 1] && i + 1 + (k - 1) == i + k;
          }
        }
      }
    }
  }

  /** Reading a map fails at the first of its lines that is not an entry. */
  lemma {:induction false} ReadEntriesErr(cs: seq<LineClass>, i: nat)
    requires i <= |cs|
    ensures var r := ReadEntries(cs, i);
      r.Err? ==>
        r.error.BadEntry? && i <= r.error.line < BlockEnd(cs, i) &&
        cs[r.error.line] == Bad(r.error.fault) &&
        forall j :: i <= j < r.error.line ==> cs[j].Entry?
    decreases |cs| - i
  {
    if i < |cs| && cs[i].Entry? {
      ReadEntriesErr(cs, i + 1);
    }
  }

  function Prepend(es: seq<MapEntry>, r: Result<(seq<MapEntry>, nat), AlmanacError>): Result<(seq<MapEntry>, nat), AlmanacError>
  {
    match r
    case Err(e) => Err(e)
    case Ok((rest, next)) => Ok((es + rest, next))
  }

  method ReadMap(lines: seq<string>, pos: nat) returns (r: Result<(seq<MapEntry>, nat), AlmanacError>)
    requires pos <= |lines|
    ensures r == ReadMapAt(Classes(lines), pos)
  {
    if pos == |lines| {
      return Err(MissingMapHeader);
    }
    ghost var cs := Classes(lines);
    var entries: seq<MapEntry> := [];
    var i := pos + 1;
    PrependNothing(ReadEntries(cs, i));
    while i < |lines|
      invariant pos + 1 <= i <= |lines|
      invariant ReadMapAt(cs, pos) == Prepend(entries, ReadEntries(cs, i))
      decreases |lines| - i
    {
      ClassOfLine(lines, i);
      if IsBlank(lines[i]) {
        assert entries + [] == entries;
        return Ok((entries, i + 1));
      }
      var entry := EntryOf(lines[i]);
      if entry.Err? {
        return Err(BadEntry(i, entry.error));
      }
      EntryStep(cs, i);
      PrependTwice(entries, [entry.value], ReadEntries(cs, i + 1));
      entries := entries + [entry.value];
      i := i + 1;
    }
    assert entries + [] == entries;
    return Ok((entries, i));
  }

  lemma EntryStep(cs: seq<LineClass>, i: nat)
    requires i < |cs| && cs[i].Entry?
    ensures ReadEntries(cs, i) == Prepend([cs[i].entry], ReadEntries(cs, i + 1))
  {
  }

  lemma PrependNothing(r: Result<(seq<MapEntry>, nat), AlmanacError>)
    ensures Prepend([], r) == r
  {
    if r.Ok? {
      assert [] + r.value.0 == r.value.0;
    }
  }

  lemma PrependTwice(a: seq<MapEntry>, b: seq<MapEntry>, r: Result<(seq<MapEntry>, nat), AlmanacError>)
    ensures Prepend(a, Prepend(b, r)) == Prepend(a + b, r)
  {
    if r.Ok? {
      assert a + (b + r.value.0) == (a + b) + r.value.0;
    }
  }

  /** `read_seeds`: the numbers of the first line after its label, and the
      position after the line that follows it. */
  function ReadSeeds(lines: seq<string>): (r: Result<(seq<nat>, nat), AlmanacError>)
    ensures r.Ok? ==> r.value.1 <= |lines|
  {
    if lines == [] then Err(NoInput)
    else
      var tokens := SplitWhitespace(lines[0]);
      var values := if tokens == [] then [] else tokens[1..];
      match ParseNumbers(values)
      case None => Err(BadSeed)
      case Some(seeds) => Ok((seeds, if |lines| >= 2 then 2 else 1))
  }

  /** The seeds line: every word after the label must be a `u64`, and the
      seeds are those words' values in order; reading resumes two lines
      down, past the blank line. */
  lemma ReadSeedsSpec(lines: seq<string>)
    requires lines != []
    ensures var words := SplitWhitespace(lines[0]);
      var r := ReadSeeds(lines);
      (r.Ok? <==> forall k :: 1 <= k < |words| ==> ParseU64(words[k]).Some?) &&
      (r.Err? ==> r.error == BadSeed) &&
      (r.Ok? ==> r.value.1 == (if |lines| >= 2 then 2 else 1) &&
                 |r.value.0| == (if words == [] then 0 else |words| - 1) &&
                 forall k :: 1 <= k < |words| ==> ParseU64(words[k]) == Some(r.value.0[k - 1]))
  {
    var words := SplitWhitespace(lines[0]);
    var values := if words == [] then [] else words[1..];
    ParseNumbersSpec(values);
    assert forall k :: 1 <= k < |words| ==> words[k] == values[k - 1];
  }

  /** `count` maps read one after another from line `pos`. */
  function ReadMaps(cs: seq<LineClass>, pos: nat, count: nat): Result<seq<seq<MapEntry>>, AlmanacError>
    requires pos <= |cs|
    decreases count
  {
    if count == 0 then Ok([])
    else
      match ReadMapAt(cs, pos)
      case Err(e) => Err(e)
      case Ok((entries, next)) =>
        ReadEntriesOk(cs, pos + 1);
        match ReadMaps(cs, next, count - 1)
        case Err(e) => Err(e)
        case Ok(rest) => Ok([entries] + rest)
  }

  // ---------------------------------------------------------------------
  // Seeds to locations

  /** A seed's location: the maps applied in order. */
  function Location(seed: nat, maps: seq<seq<MapEntry>>): (r: Result<nat, AlmanacError>)
    ensures r.Err? ==> r.error == Overflow
    decreases |maps|
  {
    if maps == [] then Ok(seed)
    else
      match Translate(seed, maps[0])
      case Err(e) => Err(e)
      case Ok(next) => Location(next, maps[1..])
  }

  /** The running minimum over `seeds`, starting from `u64::MAX`. */
  function MinLocation(seeds: seq<nat>, maps: seq<seq<MapEntry>>): (r: Result<nat, AlmanacError>)
    ensures r.Err? ==> r.error == Overflow
  {
    if seeds == [] then Ok(MAX_LOCATION)
    else
      match MinLocation(seeds[..|seeds| - 1], maps)
      case Err(e) => Err(e)
      case Ok(m) =>
        match Location(seeds[|seeds| - 1], maps)
        case Err(e) => Err(e)
        case Ok(l) => Ok(if l < m then l else m)
  }

  /** The minimum is at most every seed's location and, with any seeds,
      is one of them; it is defined exactly when every location is. */
  lemma {:induction false} MinLocationSpec(seeds: seq<nat>, maps: seq<seq<MapEntry>>)
    ensures MinLocation(seeds, maps).Ok? <==> forall i :: 0 <= i < |seeds| ==> Location(seeds[i], maps).Ok?
    ensures MinLocation(seeds, maps).Ok? ==>
      (forall i :: 0 <= i < |seeds| ==> MinLocation(seeds, maps).value <= Location(seeds[i], maps).value) &&
      (seeds == [] ==> MinLocation(seeds, maps).value == MAX_LOCATION) &&
      (seeds != [] && (forall i :: 0 <= i < |seeds| ==> seeds[i] < U64_LIMIT) ==>
        exists i :: 0 <= i < |seeds| && MinLocation(seeds, maps).value == Location(seeds[i], maps).value)
  {
    if seeds != [] {
      var front := seeds[..|seeds| - 1];
      MinLocationSpec(front, maps);
      assert forall i :: 0 <= i < |front| ==> front[i] == seeds[i];
      if MinLocation(seeds, maps).Ok? && front != [] && forall i :: 0 <= i < |seeds| ==> seeds[i] < U64_LIMIT {
        var m := MinLocation(front, maps).value;
        var i :| 0 <= i < |front| && m == Location(front[i], maps).value;
        assert seeds[i] == front[i];
        var last := |seeds| - 1;
        if Location(seeds[last], maps).value < m {
          assert MinLocation(seeds, maps).value == Location(seeds[last], maps).value;
        }
      }
      if MinLocation(seeds, maps).Ok? && front == [] && seeds[0] < U64_LIMIT {
        LocationBound(seeds[0], maps);
        assert MinLocation(seeds, maps).value == Location(seeds[0], maps).value;
      }
    }
  }

  /** A location fits a `u64`. */
  lemma {:induction false} LocationBound(seed: nat, maps: seq<seq<MapEntry>>)
    requires seed < U64_LIMIT
    ensures Location(seed, maps).Ok? ==> Location(seed, maps).value < U64_LIMIT
    decreases |maps|
  {
    if maps != [] && Translate(seed, maps[0]).Ok? {
      TranslateBound(seed, maps[0]);
      LocationBound(Translate(seed, maps[0]).value, maps[1..]);
    }
  }

  lemma {:induction false} TranslateBound(x: nat, entries: seq<MapEntry>)
    requires x < U64_LIMIT
    ensures Translate(x, entries).Ok? ==> Translate(x, entries).value < U64_LIMIT
  {
    if entries != [] && !Covers(entries[0], x) {
      TranslateBound(x, entries[1..]);
    }
  }

  /** The seeds and the seven maps of an almanac. */
  function Almanac(lines: seq<string>): Result<(seq<nat>, seq<seq<MapEntry>>), AlmanacError>
  {
    match ReadSeeds(lines)
    case Err(e) => Err(e)
    case Ok((seeds, pos)) =>
      match ReadMaps(Classes(lines), pos, MAP_COUNT)
      case Err(e) => Err(e)
      case Ok(maps) => Ok((seeds, maps))
  }

  /** The reading half of `find_minimum_location`: the seeds, then the
      maps. */
  method ReadAlmanac(lines: seq<string>) returns (r: Result<(seq<nat>, seq<seq<MapEntry>>), AlmanacError>)
    ensures r == Almanac(lines)
  {
    var seedsRead := ReadSeeds(lines);
    if seedsRead.Err? {
      return Err(seedsRead.error);
    }
    var mapsRead := ReadMapsFrom(lines, seedsRead.value.1);
    if mapsRead.Err? {
      return Err(mapsRead.error);
    }
    return Ok((seedsRead.value.0, mapsRead.value));
  }

  /** `read_map` seven times, each resuming where the last stopped. */
  method ReadMapsFrom(lines: seq<string>, start: nat) returns (r: Result<seq<seq<MapEntry>>, AlmanacError>)
    requires start <= |lines|
    ensures r == ReadMaps(Classes(lines), start, MAP_COUNT)
  {
    ghost var cs := Classes(lines);
    var pos: nat := start;
    var maps: seq<seq<MapEntry>> := [];
    match ReadMaps(cs, pos, MAP_COUNT) {
      case Err(_) =>
      case Ok(rest) => assert maps + rest == rest;
    }
    for k := 0 to MAP_COUNT
      invariant pos <= |lines| && k <= MAP_COUNT
      invariant ReadMaps(cs, start, MAP_COUNT) == PrependMaps(maps, ReadMaps(cs, pos, MAP_COUNT - k))
    {
      var read := ReadMap(lines, pos);
      if read.Err? {
        return Err(read.error);
      }
      ReadEntriesOk(cs, pos + 1);
      var entries := read.value.0;
      var next: nat := read.value.1;
      match ReadMaps(cs, next, MAP_COUNT - k - 1) {
        case Err(_) =>
        case Ok(rest) => assert maps + ([entries] + rest) == (maps + [entries]) + rest;
      }
      maps := maps + [entries];
      pos := next;
    }
    assert maps + [] == maps;
    return Ok(maps);
  }

  /** What `find_minimum_location` answers for `input`. */
  function Answer(input: string): Result<nat, AlmanacError>
  {
    match Almanac(Lines(input))
    case Err(e) => Err(e)
    case Ok((seeds, maps)) => MinLocation(seeds, maps)
  }

  method FindMinimumLocation(input: string) returns (r: Result<nat, AlmanacError>)
    ensures r == Answer(input)
  {
    var almanac := ReadAlmanac(Lines(input));
    if almanac.Err? {
      return Err(almanac.error);
    }
    r := MinimumLocation(almanac.value.0, almanac.value.1);
  }

  /** The search half of `find_minimum_location`: every seed through the
      maps, keeping the smallest location. */
  method MinimumLocation(seeds: seq<nat>, maps: seq<seq<MapEntry>>) returns (r: Result<nat, AlmanacError>)
    ensures r == MinLocation(seeds, maps)
  {
    var minLocation := MAX_LOCATION;
    for i := 0 to |seeds|
      invariant MinLocation(seeds[..i], maps) == Ok(minLocation)
    {
      assert seeds[..i + 1][..i] == seeds[..i];
      var plant := seeds[i];
      for m := 0 to |maps|
        invariant Location(seeds[i], maps) == Location(plant, maps[m..])
      {
        assert maps[m..][1..] == maps[m + 1..];
        var grown := GrowSeed(plant, maps[m]);
        if grown.Err? {
          assert Location(seeds[i], maps).Err?;
          MinLocationSpec(seeds, maps);
          return Err(grown.error);
        }
        plant := grown.value;
      }
      if plant < minLocation {
        minLocation := plant;
      }
    }
    assert seeds[..|seeds|] == seeds;
    return Ok(minLocation);
  }

  function PrependMaps(maps: seq<seq<MapEntry>>, r: Result<seq<seq<MapEntry>>, AlmanacError>): Result<seq<seq<MapEntry>>, AlmanacError>
  {
    match r
    case Err(e) => Err(e)
    case Ok(rest) => Ok(maps + rest)
  }

  // ---------------------------------------------------------------------
  // The almanac of the unit test

  function E(destination: nat, source: nat, range: nat): MapEntry
  {
    MapEntry(destination, source, range)
  }

  const EXAMPLE_SEEDS: seq<nat> := [79, 14, 55, 13]

  const EXAMPLE_MAPS: seq<seq<MapEntry>> := [
    [E(50, 98, 2), E(52, 50, 48)],
    [E(0, 15, 37), E(37, 52, 2), E(39, 0, 15)],
    [E(49, 53, 8), E(0, 11, 42), E(42, 0, 7), E(57, 7, 4)],
    [E(88, 18, 7), E(18, 25, 70)],
    [E(45, 77, 23), E(81, 45, 19), E(68, 64, 13)],
    [E(0, 69, 1), E(1, 0, 69)],
    [E(60, 56, 37), E(56, 93, 4)]]

  /** A location computed one map at a time. */
  lemma {:induction false} LocationChain(xs: seq<nat>, maps: seq<seq<MapEntry>>)
    requires |xs| == |maps| + 1
    requires forall k :: 0 <= k < |maps| ==> Translate(xs[k], maps[k]) == Ok(xs[k + 1])
    ensures Location(xs[0], maps) == Ok(xs[|maps|])
    decreases |maps|
  {
    if maps != [] {
      assert forall k :: 0 <= k < |maps| - 1 ==> maps[1..][k] == maps[k + 1] && xs[1..][k] == xs[k + 1];
      LocationChain(xs[1..], maps[1..]);
    }
  }

  /** Seed 79 passes through soil 81, fertilizer 81, water 81, light 74,
      temperature 78 and humidity 78 to location 82. */
  lemma Seed79Location()
    ensures Location(79, EXAMPLE_MAPS) == Ok(82)
  {
    LocationChain([79, 81, 81, 81, 74, 78, 78, 82], EXAMPLE_MAPS);
  }

  /** Seed 14 reaches location 43. */
  lemma Seed14Location()
    ensures Location(14, EXAMPLE_MAPS) == Ok(43)
  {
    var m := EXAMPLE_MAPS;
    assert Translate(14, m[1]) == Ok(53) by {
      assert m[1][1..][1..] == [E(39, 0, 15)];
    }
    assert Translate(42, m[4]) == Ok(42) by {
      assert m[4][1..][1..] == [E(68, 64, 13)];
    }
    LocationChain([14, 14, 53, 49, 42, 42, 43, 43], EXAMPLE_MAPS);
  }

  /** Seed 55 reaches location 86. */
  lemma Seed55Location()
    ensures Location(55, EXAMPLE_MAPS) == Ok(86)
  {
    LocationChain([55, 57, 57, 53, 46, 82, 82, 86], EXAMPLE_MAPS);
  }

  /** Seed 13 reaches location 35. */
  lemma Seed13Location()
    ensures Location(13, EXAMPLE_MAPS) == Ok(35)
  {
    LocationChain([13, 13, 52, 41, 34, 34, 35, 35], EXAMPLE_MAPS);
  }

  /** Seed 13 reaches the smallest location, 35. */
  lemma ExampleMinimum()
    ensures MinLocation(EXAMPLE_SEEDS, EXAMPLE_MAPS) == Ok(35)
  {
    Seed79Location();
    Seed14Location();
    Seed55Location();
    Seed13Location();
    var s := EXAMPLE_SEEDS;
    assert s[..3][..2][..1][..0] == [];
    assert s[..3] == [79, 14, 55] && s[..3][..2] == [79, 14] && s[..3][..2][..1] == [79];
    assert MinLocation([79], EXAMPLE_MAPS) == Ok(82);
    assert MinLocation([79, 14], EXAMPLE_MAPS) == Ok(43);
    assert MinLocation([79, 14, 55], EXAMPLE_MAPS) == Ok(43);
  }
}
