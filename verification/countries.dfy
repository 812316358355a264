/** `build_country_list`: one entry per normalised partner key seen in either
    table, shown under the export spelling when there is one, with its region. */
module Countries {
  import opened Seqs
  import opened Text
  import opened Regions
  import opened Grouping

  function Identity(s: string): string { s }

  /** The distinct names are exactly the names. */
  lemma KeysAreNames(names: seq<string>)
    ensures forall x :: x in Keys(names, Identity) <==> x in names
  {
    var u := Keys(names, Identity);
    assert forall i :: 0 <= i < |names| ==> Identity(names[i]) == names[i];
    assert forall x :: x in u ==> x in KeySet(names, Identity);
  }

  /** The distinct names come in the order of their first appearance. */
  lemma {:induction false} KeysInFirstAppearanceOrder(names: seq<string>)
    ensures InFirstAppearanceOrder(Keys(names, Identity), names)
    decreases |names|
  {
    KeysAreNames(names);
    if |names| > 0 {
      var front := names[..|names| - 1];
      var c := names[|names| - 1];
      var v := Keys(front, Identity);
      KeysInFirstAppearanceOrder(front);
      KeysAreNames(front);
      if c in v {
        assert Keys(names, Identity) == v;
        FirstAppearanceSnoc(v, names);
      } else {
        assert Keys(names, Identity) == v + [c];
        FirstAppearanceSnocNew(v, names);
      }
    }
  }

  /** `column.unique()`: the distinct names, each once, in order of first
      appearance. */
  function Unique(names: seq<string>): (u: seq<string>)
    ensures Distinct(u)
    ensures forall i :: 0 <= i < |names| ==> names[i] in u
    ensures InFirstAppearanceOrder(u, names)
  {
    KeysAreNames(names);
    KeysInFirstAppearanceOrder(names);
    Keys(names, Identity)
  }

  /** `{_normalizar(c): c for c in names}`: each key maps to a spelling that
      normalises to it; a later spelling of the same key overwrites an earlier one. */
  function SpellingMap(ops: TextOps, names: seq<string>): (m: map<string, string>)
    ensures m.Keys == set c | c in names :: Normalize(ops, c)
    ensures forall n :: n in m ==> Normalize(ops, m[n]) == n && m[n] in names
    decreases |names|
  {
    if |names| == 0 then map[]
    else
      var front := names[..|names| - 1];
      var c := names[|names| - 1];
      assert (set x | x in names :: Normalize(ops, x)) == (set x | x in front :: Normalize(ops, x)) + {Normalize(ops, c)} by {
        assert names == front + [c];
      }
      SpellingMap(ops, front)[Normalize(ops, c) := c]
  }

  /** The spelling map of a non-empty list is that of its front, updated
      with the last name. */
  lemma SpellingMapSnoc(ops: TextOps, names: seq<string>)
    requires |names| > 0
    ensures SpellingMap(ops, names)
         == SpellingMap(ops, names[..|names| - 1])[Normalize(ops, names[|names| - 1]) := names[|names| - 1]]
  {
  }

  /** No name after position `i` normalises to `n`. */
  predicate NoLaterSpelling(ops: TextOps, names: seq<string>, i: nat, n: string)
  {
    forall j :: i < j < |names| ==> Normalize(ops, names[j]) != n
  }

  /** A last name with another key keeps `n` unspelled after `i`. */
  lemma NoLaterSpellingSnoc(ops: TextOps, names: seq<string>, i: nat, n: string)
    requires |names| > 0 && Normalize(ops, names[|names| - 1]) != n
    requires NoLaterSpelling(ops, names[..|names| - 1], i, n)
    ensures NoLaterSpelling(ops, names, i, n)
  {
    forall j | i < j < |names|
      ensures Normalize(ops, names[j]) != n
    {
      if j < |names| - 1 {
        assert names[j] == names[..|names| - 1][j];
      }
    }
  }

  /** The last name's key is spelled by the last name. */
  lemma LastNameSpells(ops: TextOps, names: seq<string>, n: string)
    requires |names| > 0 && Normalize(ops, names[|names| - 1]) == n
    ensures n in SpellingMap(ops, names) && names[|names| - 1] == SpellingMap(ops, names)[n]
    ensures NoLaterSpelling(ops, names, |names| - 1, n)
  {
    SpellingMapSnoc(ops, names);
  }

  /** A last name with another key leaves the spelling of `n`, and its being
      the last one, as they were in the front. */
  lemma EarlierNameSpells(ops: TextOps, names: seq<string>, n: string, i: nat)
    requires |names| > 0 && Normalize(ops, names[|names| - 1]) != n
    requires i < |names| - 1
    requires var front := names[..|names| - 1];
      n in SpellingMap(ops, front) && front[i] == SpellingMap(ops, front)[n]
      && NoLaterSpelling(ops, front, i, n)
    ensures n in SpellingMap(ops, names) && names[i] == SpellingMap(ops, names)[n]
    ensures NoLaterSpelling(ops, names, i, n)
  {
    SpellingMapSnoc(ops, names);
    assert names[i] == names[..|names| - 1][i];
    NoLaterSpellingSnoc(ops, names, i, n);
  }

  /** Over a list of names, the last spelling of a key wins: the stored
      spelling is some occurrence `i` of the key, and no later name has that
      key. */
  lemma {:induction false} LastUniqueSpellingWins(ops: TextOps, names: seq<string>, n: string)
    requires n in SpellingMap(ops, names)
    ensures exists i :: 0 <= i < |names| && names[i] == SpellingMap(ops, names)[n]
              && NoLaterSpelling(ops, names, i, n)
  {
    var last := |names| - 1;
    var front := names[..last];
    if Normalize(ops, names[last]) == n {
      LastNameSpells(ops, names, n);
    } else {
      SpellingMapSnoc(ops, names);
      LastUniqueSpellingWins(ops, front, n);
      var i :| 0 <= i < |front| && front[i] == SpellingMap(ops, front)[n] && NoLaterSpelling(ops, front, i, n);
      EarlierNameSpells(ops, names, n, i);
    }
  }

  /** The unique names carry the same keys as the column. */
  lemma UniqueSameKeys(ops: TextOps, column: seq<string>)
    ensures (set c | c in Unique(column) :: Normalize(ops, c)) == (set c | c in column :: Normalize(ops, c))
  {
    KeysAreNames(column);
  }

  /** `exp_map` / `imp_map`: the spelling map over the column's unique
      values. It has one entry per key of the column, and each entry is a
      name of the column with that key. */
  function Spellings(ops: TextOps, column: seq<string>): (m: map<string, string>)
    ensures m.Keys == set c | c in column :: Normalize(ops, c)
    ensures forall n :: n in m ==> m[n] in column && Normalize(ops, m[n]) == n
  {
    UniqueSameKeys(ops, column);
    SpellingMap(ops, Unique(column))
  }

  /** If `u` lists every name of the column in order of first appearance and
      no name after position `i` has key `n`, then no name of the column with
      key `n` first appears after `u[i]` does. */
  lemma LatestFirstAppearance(ops: TextOps, column: seq<string>, u: seq<string>, i: nat, n: string)
    requires i < |u|
    requires forall k :: 0 <= k < |column| ==> column[k] in u
    requires InFirstAppearanceOrder(u, column)
    requires NoLaterSpelling(ops, u, i, n)
    ensures u[i] in column
    ensures forall c :: c in column && Normalize(ops, c) == n ==> FirstIndex(column, c) <= FirstIndex(column, u[i])
  {
    forall c | c in column && Normalize(ops, c) == n
      ensures FirstIndex(column, c) <= FirstIndex(column, u[i])
    {
      assert column[FirstIndex(column, c)] in u;
      var j :| 0 <= j < |u| && u[j] == c;
      SpelledNotLater(ops, u, i, j, n);
      FirstAppearanceMonotone(u, column, j, i);
    }
  }

  /** A name with key `n` sits at or before `i` when none after `i` has it. */
  lemma SpelledNotLater(ops: TextOps, u: seq<string>, i: nat, j: nat, n: string)
    requires j < |u| && Normalize(ops, u[j]) == n
    requires NoLaterSpelling(ops, u, i, n)
    ensures j <= i
  {
  }

  /** Within one table the spelling kept for a key is, among the names of the
      column with that key, the one whose first appearance comes last: the
      comprehension runs over `unique()` in order of first appearance, and a
      later entry overwrites an earlier one. */
  lemma LastSpellingWins(ops: TextOps, column: seq<string>, n: string)
    requires exists c :: c in column && Normalize(ops, c) == n
    ensures n in Spellings(ops, column)
    ensures var s := Spellings(ops, column)[n];
      && s in column && Normalize(ops, s) == n
      && forall c :: c in column && Normalize(ops, c) == n ==> FirstIndex(column, c) <= FirstIndex(column, s)
  {
    var u := Unique(column);
    LastUniqueSpellingWins(ops, u, n);
    var i :| 0 <= i < |u| && u[i] == SpellingMap(ops, u)[n] && NoLaterSpelling(ops, u, i, n);
    LatestFirstAppearance(ops, column, u, i, n);
  }

  /** `all_norm`: every normalised key of either table. */
  function AllKeys(ops: TextOps, exports: seq<string>, imports: seq<string>): (keys: set<string>)
    ensures keys == (set c | c in exports :: Normalize(ops, c)) + (set c | c in imports :: Normalize(ops, c))
  {
    Spellings(ops, exports).Keys + Spellings(ops, imports).Keys
  }

  /** `exp_map.get(n, imp_map.get(n, n))`: the export spelling when the key
      occurs among exports, else the import spelling. */
  function DisplayName(ops: TextOps, exports: seq<string>, imports: seq<string>, n: string): (d: string)
    ensures (exists c :: c in exports && Normalize(ops, c) == n) ==> d in exports && Normalize(ops, d) == n
    ensures (forall c :: c in exports ==> Normalize(ops, c) != n) && (exists c :: c in imports && Normalize(ops, c) == n)
      ==> d in imports && Normalize(ops, d) == n
    ensures (forall c :: c in exports + imports ==> Normalize(ops, c) != n) ==> d == n
  {
    var em := Spellings(ops, exports);
    var im := Spellings(ops, imports);
    if n in em then em[n] else if n in im then im[n] else n
  }

  /** The displayed name of a key normalises back to that key. */
  lemma DisplayNameKey(ops: TextOps, exports: seq<string>, imports: seq<string>, n: string)
    requires exists c :: c in exports + imports && Normalize(ops, c) == n
    ensures Normalize(ops, DisplayName(ops, exports, imports, n)) == n
  {
  }

  /** One entry of the country index: the normalised key and the region. */
  datatype CountryEntry = CountryEntry(key: string, region: string)

  /** `index` is the country index of `keys`: each key's display name maps
      to the key and the region of that name, nothing else is in it, and
      there is one entry per key. */
  predicate IsIndexOf(index: map<string, CountryEntry>, keys: set<string>,
                      display: string -> string, region: string -> string)
  {
    && (forall n :: n in keys ==>
          display(n) in index && index[display(n)] == CountryEntry(n, region(display(n))))
    && (forall d :: d in index ==> index[d].key in keys && d == display(index[d].key))
    && |index| == |keys|
  }

  /** Display names tell the keys apart. */
  predicate TellsApart(keys: set<string>, display: string -> string)
  {
    forall a, b :: a in keys && b in keys && display(a) == display(b) ==> a == b
  }

  /** A key not yet indexed has a display name not yet taken. */
  lemma IndexFresh(index: map<string, CountryEntry>, done: set<string>, n: string,
                   keys: set<string>, display: string -> string, region: string -> string)
    requires IsIndexOf(index, done, display, region)
    requires done <= keys && n in keys && n !in done
    requires TellsApart(keys, display)
    ensures display(n) !in index
  {
    forall d | d in index
      ensures d != display(n)
    {
      var k := index[d].key;
      assert k in done && d == display(k);
      assert k != n;
    }
  }

  /** An insertion under a fresh key adds one entry. */
  lemma InsertFreshSize(index: map<string, CountryEntry>, d: string, e: CountryEntry)
    requires d !in index
    ensures |index[d := e]| == |index| + 1
  {
    assert index[d := e].Keys == index.Keys + {d};
  }

  /** After the insertion every key indexed so far, and `n`, is found under
      its display name. */
  lemma IndexInsertCovers(index: map<string, CountryEntry>, done: set<string>, n: string,
                          keys: set<string>, display: string -> string, region: string -> string)
    requires forall m :: m in done ==>
      display(m) in index && index[display(m)] == CountryEntry(m, region(display(m)))
    requires done <= keys && n in keys && n !in done
    requires TellsApart(keys, display)
    ensures var next := index[display(n) := CountryEntry(n, region(display(n)))];
      forall m :: m in done + {n} ==>
        display(m) in next && next[display(m)] == CountryEntry(m, region(display(m)))
  {
    forall m | m in done
      ensures display(m) != display(n)
    {
      assert m != n;
    }
  }

  /** After the insertion every entry is still some key's display name. */
  lemma IndexInsertOnly(index: map<string, CountryEntry>, done: set<string>, n: string,
                        display: string -> string, region: string -> string)
    requires forall d :: d in index ==> index[d].key in done && d == display(index[d].key)
    ensures var next := index[display(n) := CountryEntry(n, region(display(n)))];
      forall e :: e in next ==> next[e].key in done + {n} && e == display(next[e].key)
  {
  }

  /** Adding one more key to an index whose display names tell keys apart. */
  lemma IndexInsert(index: map<string, CountryEntry>, done: set<string>, n: string,
                    keys: set<string>, display: string -> string, region: string -> string)
    requires IsIndexOf(index, done, display, region)
    requires done <= keys && n in keys && n !in done
    requires TellsApart(keys, display)
    ensures IsIndexOf(index[display(n) := CountryEntry(n, region(display(n)))], done + {n}, display, region)
  {
    IndexFresh(index, done, n, keys, display, region);
    InsertFreshSize(index, display(n), CountryEntry(n, region(display(n))));
    IndexInsertCovers(index, done, n, keys, display, region);
    IndexInsertOnly(index, done, n, display, region);
  }

  /** Taking `n` from the keys still to do adds it to the keys done. */
  lemma MoveToDone(keys: set<string>, todo: set<string>, n: string)
    requires n in todo && todo <= keys
    ensures keys - (todo - {n}) == (keys - todo) + {n}
  {
  }

  /** The loop of `build_country_list`, over any key set and any display
      function that tells keys apart: each key's display name maps to the key
      and the region of that name, and nothing else is in the index. */
  method IndexKeys(keys: set<string>, display: string -> string, region: string -> string)
    returns (index: map<string, CountryEntry>)
    requires TellsApart(keys, display)
    ensures forall n :: n in keys ==>
      display(n) in index && index[display(n)] == CountryEntry(n, region(display(n)))
    ensures forall d :: d in index ==> index[d].key in keys && d == display(index[d].key)
    ensures |index| == |keys|
  {
    var todo := keys;
    index := map[];
    while todo != {}
      invariant todo <= keys
      invariant IsIndexOf(index, keys - todo, display, region)
      decreases todo
    {
      var n :| n in todo;
      IndexInsert(index, keys - todo, n, keys, display, region);
      MoveToDone(keys, todo, n);
      index := index[display(n) := CountryEntry(n, region(display(n)))];
      todo := todo - {n};
    }
    assert keys - todo == keys;
  }

  /** `build_country_list`: for every key `n` of either table, the display
      name `d` of `n` maps to `(n, _asignar_region(d))`, and nothing else is in
      the index. */
  method BuildCountryList(ops: TextOps, table: seq<Pattern>, exports: seq<string>, imports: seq<string>)
    returns (index: map<string, CountryEntry>)
    ensures forall n :: n in AllKeys(ops, exports, imports) ==>
      var d := DisplayName(ops, exports, imports, n);
      d in index && index[d] == CountryEntry(n, Classify(ops, table, d))
    ensures forall d :: d in index ==>
      index[d].key in AllKeys(ops, exports, imports) && d == DisplayName(ops, exports, imports, index[d].key)
    ensures |index| == |AllKeys(ops, exports, imports)|
  {
    var all := AllKeys(ops, exports, imports);
    var display := n => DisplayName(ops, exports, imports, n);
    forall n, m | n in all && m in all && display(n) == display(m)
      ensures n == m
    {
      DisplayNameKey(ops, exports, imports, n);
      DisplayNameKey(ops, exports, imports, m);
    }
    index := IndexKeys(all, display, d => Classify(ops, table, d));
  }

  /** A key's region does not depend on which spelling is displayed: it is
      the classification of the key itself. */
  lemma RegionOfKey(ops: TextOps, table: seq<Pattern>, exports: seq<string>, imports: seq<string>, n: string)
    requires n in AllKeys(ops, exports, imports)
    ensures Classify(ops, table, DisplayName(ops, exports, imports, n)) == ClassifyKey(ops, table, n)
  {
    DisplayNameKey(ops, exports, imports, n);
  }
}
