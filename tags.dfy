/** The symbol table of a ref, read from the `tags` file that ctags writes
    (`_prepare`), and the nearest-name search over it
    (`_locate_similar_symbol`). */
module Tags {
  import opened Results
  import opened Text
  import opened EditDistance
  import opened Alignment

  /** A location of a symbol: a file path and a line number. */
  type Location = (string, int)

  /** One ref's symbol map. `keys` lists the symbols in the order they were
      first met, which is the order a Python dict iterates them in. */
  datatype Table = Table(keys: seq<string>, entries: map<string, seq<Location>>)

  const EmptyTable := Table([], map[])

  /** The keys are distinct and are exactly the symbols with entries. */
  ghost predicate WellKeyed(t: Table) {
    (forall i, j :: 0 <= i < j < |t.keys| ==> t.keys[i] != t.keys[j])
    && t.entries.Keys == set k | k in t.keys
  }

  /** One line of the tags file: the symbol, file and line number before the
      `;"` comment, tab-separated. Pseudo-tags (`!_TAG_`), empty lines, lines
      that do not split into exactly three fields and line numbers that
      `int()` refuses are skipped (None). */
  function TagEntry(text: string): (r: Option<(string, Location)>)
    ensures r.Some? ==> '\t' !in r.value.0
  {
    if text == [] || StartsWith(text, "!_TAG_") then None
    else
      var t := Strip(text);
      var k := Find(t, ";\"", 0);
      var head := if k < 0 then t else t[..k];
      var fields := Split(head, '\t');
      if |fields| != 3 then None
      else match ParseInt(fields[2])
        case None => None
        case Some(n) => Some((fields[0], (fields[1], n)))
  }

  /** `symbol_map[ref][symbol].append((file, lineno))`, creating the list
      (and the key) on first use. */
  function AddEntry(t: Table, symbol: string, loc: Location): Table {
    if symbol in t.entries then Table(t.keys, t.entries[symbol := t.entries[symbol] + [loc]])
    else Table(t.keys + [symbol], t.entries[symbol := [loc]])
  }

  /** The table built from the lines of a tags file, in order. */
  function ParseTags(lines: seq<string>): Table
  {
    if lines == [] then EmptyTable
    else
      var t := ParseTags(lines[..|lines| - 1]);
      match TagEntry(lines[|lines| - 1])
      case None => t
      case Some((s, loc)) => AddEntry(t, s, loc)
  }

  /** The tag-line loop of `_prepare`. */
  method ReadTags(lines: seq<string>) returns (t: Table)
    ensures t == ParseTags(lines)
  {
    t := EmptyTable;
    var i := 0;
    while i < |lines|
      invariant i <= |lines|
      invariant t == ParseTags(lines[..i])
    {
      assert lines[..i + 1][..i] == lines[..i];
      var e := TagEntry(lines[i]);
      if e.Some? {
        var (symbol, loc) := e.value;
        t := AddEntry(t, symbol, loc);
      }
      i := i + 1;
    }
    assert lines[..i] == lines;
  }

  /** The locations the lines give for `symbol`, in file order. */
  function LocationsIn(lines: seq<string>, symbol: string): seq<Location>
  {
    if lines == [] then []
    else
      var e := TagEntry(lines[|lines| - 1]);
      LocationsIn(lines[..|lines| - 1], symbol) + (if e.Some? && e.value.0 == symbol then [e.value.1] else [])
  }

  lemma AddEntryWellKeyed(t: Table, symbol: string, loc: Location)
    requires WellKeyed(t)
    ensures WellKeyed(AddEntry(t, symbol, loc))
  {
  }

  /** The table lists, for each symbol, exactly its locations in file order;
      a symbol has a key exactly when some line names it; the keys are
      distinct. */
  lemma {:induction false} ParseTagsCollects(lines: seq<string>, symbol: string)
    ensures WellKeyed(ParseTags(lines))
    ensures symbol in ParseTags(lines).entries <==> LocationsIn(lines, symbol) != []
    ensures symbol in ParseTags(lines).entries ==> ParseTags(lines).entries[symbol] == LocationsIn(lines, symbol)
    decreases |lines|
  {
    if lines != [] {
      var init := lines[..|lines| - 1];
      ParseTagsCollects(init, symbol);
      var t := ParseTags(init);
      var e := TagEntry(lines[|lines| - 1]);
      assert ParseTags(lines) == if e.None? then t else AddEntry(t, e.value.0, e.value.1);
      CollectStep(t, e, symbol, LocationsIn(init, symbol));
    }
  }

  /** One line read: the table keeps listing exactly the locations. */
  lemma CollectStep(t: Table, e: Option<(string, Location)>, symbol: string, locs: seq<Location>)
    requires WellKeyed(t) && (symbol in t.entries <==> locs != [])
    requires symbol in t.entries ==> t.entries[symbol] == locs
    ensures var t' := if e.None? then t else AddEntry(t, e.value.0, e.value.1);
      var locs' := locs + (if e.Some? && e.value.0 == symbol then [e.value.1] else []);
      WellKeyed(t') && (symbol in t'.entries <==> locs' != [])
      && (symbol in t'.entries ==> t'.entries[symbol] == locs')
  {
    if e.Some? {
      AddEntryWellKeyed(t, e.value.0, e.value.1);
    }
  }

  /** The distance of each key from `symbol`, in key order. */
  function KeyDistances(t: Table, symbol: string): (r: seq<(nat, string)>)
    ensures |r| == |t.keys|
    ensures forall i :: 0 <= i < |r| ==> r[i] == (Lev(symbol, t.keys[i]), t.keys[i])
  {
    seq(|t.keys|, i requires 0 <= i < |t.keys| => (Lev(symbol, t.keys[i]), t.keys[i]))
  }

  /** The key nearest to `symbol` by edit distance, the first one among
      equals; None when the table is empty. */
  function NearestKey(t: Table, symbol: string): (r: Option<string>)
    ensures r.Some? <==> t.keys != []
  {
    if t.keys == [] then None else Some(t.keys[EarliestMin(KeyDistances(t, symbol))])
  }

  /** No key is nearer than the one chosen, and every key before it is
      strictly farther. */
  lemma NearestKeyIsNearest(t: Table, symbol: string)
    requires t.keys != []
    ensures var m := EarliestMin(KeyDistances(t, symbol));
      NearestKey(t, symbol) == Some(t.keys[m])
      && (forall k :: 0 <= k < |t.keys| ==> Lev(symbol, t.keys[m]) <= Lev(symbol, t.keys[k]))
      && (forall k :: 0 <= k < m ==> Lev(symbol, t.keys[k]) > Lev(symbol, t.keys[m]))
  {
    EarliestMinSpec(KeyDistances(t, symbol));
  }

  /** Two indices that are each the earliest of least distance are equal. */
  lemma EarliestIsUnique(e: seq<(nat, string)>, a: nat, b: nat)
    requires a < |e| && b < |e|
    requires forall k :: 0 <= k < |e| ==> e[a].0 <= e[k].0 && e[b].0 <= e[k].0
    requires forall k :: 0 <= k < a ==> e[k].0 > e[a].0
    requires forall k :: 0 <= k < b ==> e[k].0 > e[b].0
    ensures a == b
  {
    assert e[a].0 <= e[b].0 && e[b].0 <= e[a].0;
  }

  /** The loop of `_locate_similar_symbol`: a key replaces the nearest so far
      only when strictly nearer (the first key always does, against
      `float("inf")`); the answer is the key and its locations. */
  method LocateSimilar(t: Table, symbol: string) returns (locs: Option<seq<Location>>, nearest: Option<string>)
    requires WellKeyed(t)
    ensures nearest == NearestKey(t, symbol)
    ensures locs == if nearest.Some? then Some(t.entries[nearest.value]) else None
  {
    ghost var e := KeyDistances(t, symbol);
    nearest := None;
    var best := 0;
    var smallest: Distance := Infinite;
    var i := 0;
    while i < |t.keys|
      invariant i <= |t.keys|
      invariant nearest.None? <==> i == 0
      invariant nearest.None? ==> smallest.Infinite?
      invariant nearest.Some? ==> best < i && nearest.value == t.keys[best] && smallest == Finite(e[best].0)
      invariant nearest.Some? ==> forall k :: 0 <= k < i ==> e[best].0 <= e[k].0
      invariant nearest.Some? ==> forall k :: 0 <= k < best ==> e[k].0 > e[best].0
    {
      var d := Lev(symbol, t.keys[i]);
      if Below(d, smallest) {
        smallest := Finite(d);
        nearest := Some(t.keys[i]);
        best := i;
      }
      i := i + 1;
    }
    if nearest.Some? {
      EarliestMinSpec(e);
      EarliestIsUnique(e, best, EarliestMin(e));
      locs := Some(t.entries[nearest.value]);
    } else {
      locs := None;
    }
  }
}
