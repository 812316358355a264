/** Country-name normalisation (`_normalizar`) and substring search.

    The Unicode services the normaliser relies on -- upper-casing, whitespace
    stripping, canonical decomposition (NFD) and the "combining mark" (category
    Mn) test -- are not modelled character by character: they are supplied as a
    `TextOps` record, and every property below holds whatever those services
    do. The module `Latin` gives one concrete, partial instance. */
module Text {
  import opened Seqs

  /** The four library services `_normalizar` calls. */
  datatype TextOps = TextOps(
    upper: string -> string,      // str.upper
    strip: string -> string,      // str.strip
    decompose: string -> string,  // unicodedata.normalize("NFD", _)
    isMark: char -> bool)         // unicodedata.category(c) == "Mn"

  /** The characters `_normalizar` keeps. */
  function Unmarked(ops: TextOps): char -> bool
  {
    c => !ops.isMark(c)
  }

  /** The final filtering step of `_normalizar`: every combining mark goes,
      every other character stays, in order (`DropMarksSpec`). */
  function DropMarks(ops: TextOps, s: string): (r: string)
    ensures forall i :: 0 <= i < |r| ==> !ops.isMark(r[i])
  {
    Filter(s, Unmarked(ops))
  }

  /** Mark dropping removes the combining marks and nothing else: the result
      keeps the other characters in their order, is exactly as long as their
      number, and holds a character exactly when `s` holds it and it is not
      a mark. */
  lemma DropMarksSpec(ops: TextOps, s: string)
    ensures IsSubsequence(DropMarks(ops, s), s)
    ensures |DropMarks(ops, s)| == Count(s, Unmarked(ops))
    ensures forall c :: c in DropMarks(ops, s) <==> c in s && !ops.isMark(c)
  {
    FilterSubsequence(s, Unmarked(ops));
    FilterCount(s, Unmarked(ops));
    FilterMembers(s, Unmarked(ops));
  }

  /** `_normalizar`: upper-case, strip, decompose, then drop combining marks.
      The key never holds a mark; `NormalizeSpec` states what it does hold. */
  function Normalize(ops: TextOps, s: string): (key: string)
    ensures forall i :: 0 <= i < |key| ==> !ops.isMark(key[i])
  {
    DropMarks(ops, ops.decompose(ops.strip(ops.upper(s))))
  }

  /** The key is the upper-cased, stripped, decomposed name with its marks
      dropped: its characters are the non-mark characters of that string, in
      order and with the same count. */
  lemma NormalizeSpec(ops: TextOps, s: string)
    ensures var d := ops.decompose(ops.strip(ops.upper(s)));
      && IsSubsequence(Normalize(ops, s), d)
      && |Normalize(ops, s)| == Count(d, Unmarked(ops))
      && forall c :: c in Normalize(ops, s) <==> c in d && !ops.isMark(c)
  {
    DropMarksSpec(ops, ops.decompose(ops.strip(ops.upper(s))));
  }

  /** The mark-dropping step is idempotent: a key has no marks left to drop. */
  lemma DropMarksIdempotent(ops: TextOps, s: string)
    ensures DropMarks(ops, DropMarks(ops, s)) == DropMarks(ops, s)
  {
    FilterIdempotent(s, Unmarked(ops));
  }

  /** Normalising a key again gives the key back whenever the three library
      services leave that key alone. Without that hypothesis the property
      fails: see `Latin.NormalizeNotIdempotent`. */
  lemma NormalizeStable(ops: TextOps, s: string)
    requires var k := Normalize(ops, s);
      ops.upper(k) == k && ops.strip(k) == k && ops.decompose(k) == k
    ensures Normalize(ops, Normalize(ops, s)) == Normalize(ops, s)
  {
    DropMarksIdempotent(ops, ops.decompose(ops.strip(ops.upper(s))));
  }

  /** `p` is a prefix of `s`. */
  predicate StartsWith(s: string, p: string)
  {
    |p| <= |s| && s[..|p|] == p
  }

  /** Python's `p in s` on strings: `p` occurs as a contiguous block of `s`
      (the empty string occurs in every string). */
  predicate Contains(s: string, p: string)
    decreases |s|
  {
    StartsWith(s, p) || (|s| > 0 && Contains(s[1..], p))
  }

  /** `p` occurs in `s` starting at offset `k`. */
  predicate OccursAt(s: string, p: string, k: int)
  {
    0 <= k <= |s| - |p| && s[k..k + |p|] == p
  }

  /** `Contains` is the usual "occurs at some offset" relation. */
  lemma {:induction false} ContainsIff(s: string, p: string)
    ensures Contains(s, p) <==> exists k :: OccursAt(s, p, k)
  {
    if StartsWith(s, p) {
      assert OccursAt(s, p, 0);
    } else if |s| > 0 {
      ContainsIff(s[1..], p);
      if Contains(s[1..], p) {
        var k :| OccursAt(s[1..], p, k);
        assert s[k + 1..k + 1 + |p|] == s[1..][k..k + |p|];
        assert OccursAt(s, p, k + 1);
      }
      if k :| OccursAt(s, p, k) {
        assert k != 0;
        assert s[1..][k - 1..k - 1 + |p|] == s[k..k + |p|];
        assert OccursAt(s[1..], p, k - 1);
      }
    }
  }
}
