/** A concrete, partial stand-in for the Unicode services, enough for the
    Spanish country names of the trade tables: ASCII and Latin-1 letters are
    upper-cased, the usual ASCII whitespace is stripped, the accented capitals
    of Spanish (and a few neighbours) decompose into base letter plus combining
    mark, and the block U+0300..U+036F counts as combining marks. It exists
    so that the examples below can be stated about concrete strings. */
module Latin {
  import opened Text

  const Acute: char := '\U{0301}'
  const Tilde: char := '\U{0303}'
  const Diaeresis: char := '\U{0308}'

  function UpperChar(c: char): char
  {
    if 'a' <= c <= 'z' then (c as int - 32) as char
    else if '\U{00E0}' <= c <= '\U{00FE}' && c != '\U{00F7}' then (c as int - 32) as char
    else c
  }

  function Upper(s: string): string
  {
    if |s| == 0 then [] else [UpperChar(s[0])] + Upper(s[1..])
  }

  predicate IsSpace(c: char)
  {
    c == ' ' || c == '\t' || c == '\n' || c == '\r'
  }

  function StripLeft(s: string): string
  {
    if |s| > 0 && IsSpace(s[0]) then StripLeft(s[1..]) else s
  }

  function StripRight(s: string): string
  {
    if |s| > 0 && IsSpace(s[|s| - 1]) then StripRight(s[..|s| - 1]) else s
  }

  function Strip(s: string): string
  {
    StripRight(StripLeft(s))
  }

  function DecomposeChar(c: char): string
  {
    match c
    case 'Á' => ['A', Acute]
    case 'É' => ['E', Acute]
    case 'Í' => ['I', Acute]
    case 'Ó' => ['O', Acute]
    case 'Ú' => ['U', Acute]
    case 'Ñ' => ['N', Tilde]
    case 'Ü' => ['U', Diaeresis]
    case 'á' => ['a', Acute]
    case 'é' => ['e', Acute]
    case 'í' => ['i', Acute]
    case 'ó' => ['o', Acute]
    case 'ú' => ['u', Acute]
    case 'ñ' => ['n', Tilde]
    case 'ü' => ['u', Diaeresis]
    case _ => [c]
  }

  function Decompose(s: string): string
  {
    if |s| == 0 then [] else DecomposeChar(s[0]) + Decompose(s[1..])
  }

  predicate IsMark(c: char)
  {
    '\U{0300}' <= c <= '\U{036F}'
  }

  const Ops: TextOps := TextOps(Upper, Strip, Decompose, IsMark)

  /** Characters below the combining-mark block survive mark dropping. */
  lemma DropMarksKeepsPlain(s: string)
    requires forall i :: 0 <= i < |s| ==> s[i] < '\U{0300}'
    ensures DropMarks(Ops, s) == s
  {
    assert forall i :: 0 <= i < |s| ==> !IsMark(s[i]);
    Seqs.FilterKeepsPassing(s, Unmarked(Ops));
  }

  /** A single combining mark is dropped entirely. */
  lemma DropOneMark(m: char)
    requires IsMark(m)
    ensures DropMarks(Ops, [m]) == []
  {
    assert !Unmarked(Ops)(m);
    assert [m][1..] == [];
  }

  /** A mark after plain characters is dropped, and they are kept. */
  lemma DropTrailingMark(s: string, m: char)
    requires forall i :: 0 <= i < |s| ==> s[i] < '\U{0300}'
    requires IsMark(m)
    ensures DropMarks(Ops, s + [m]) == s
  {
    Seqs.FilterAppend(s, [m], Unmarked(Ops));
    DropMarksKeepsPlain(s);
    DropOneMark(m);
  }

  /** A mark before plain characters is dropped, and they are kept. */
  lemma DropLeadingMark(m: char, s: string)
    requires IsMark(m)
    requires forall i :: 0 <= i < |s| ==> s[i] < '\U{0300}'
    ensures DropMarks(Ops, [m] + s) == s
  {
    Seqs.FilterAppend([m], s, Unmarked(Ops));
    DropMarksKeepsPlain(s);
    DropOneMark(m);
  }

  /** `Normalize` under these services, stage by stage. */
  lemma NormalizeStages(s: string, upper: string, stripped: string, decomposed: string)
    requires Upper(s) == upper && Strip(upper) == stripped && Decompose(stripped) == decomposed
    ensures Normalize(Ops, s) == DropMarks(Ops, decomposed)
  {
  }

  lemma UpperPeruAccent()
    ensures Upper("Perú") == "PERÚ"
  {
    assert UpperChar('P') == 'P' && UpperChar('e') == 'E';
    assert UpperChar('r') == 'R' && UpperChar('ú') == 'Ú';
    assert Upper("ú") == "Ú";
    assert Upper("rú") == "RÚ";
    assert Upper("erú") == "ERÚ";
  }

  lemma StripPeruAccent()
    ensures Strip("PERÚ") == "PERÚ"
  {
    assert StripLeft("PERÚ") == "PERÚ";
    assert StripRight("PERÚ") == "PERÚ";
  }

  lemma DecomposePeruAccent()
    ensures Decompose("PERÚ") == "PERU" + [Acute]
  {
    assert Decompose("Ú") == ['U', Acute];
    assert Decompose("RÚ") == ['R', 'U', Acute];
    assert Decompose("ERÚ") == ['E', 'R', 'U', Acute];
  }

  /** "Perú" and "PERU" share one key. */
  lemma PeruSpellingsShareKey()
    ensures Normalize(Ops, "Perú") == "PERU"
  {
    UpperPeruAccent();
    StripPeruAccent();
    DecomposePeruAccent();
    NormalizeStages("Perú", "PERÚ", "PERÚ", "PERU" + [Acute]);
    DropTrailingMark("PERU", Acute);
  }

  lemma StripPaddedPeru()
    ensures Strip(" PERU ") == "PERU"
  {
    assert StripLeft(" PERU ") == "PERU ";
    assert StripRight("PERU ") == "PERU";
  }

  lemma DecomposePlainPeru()
    ensures Decompose("PERU") == "PERU"
  {
  }

  lemma UpperPaddedPeru()
    ensures Upper(" peru ") == " PERU "
  {
    assert UpperChar('p') == 'P' && UpperChar('e') == 'E';
    assert UpperChar('r') == 'R' && UpperChar('u') == 'U';
    assert Upper(" ") == " ";
    assert Upper("u ") == "U ";
    assert Upper("ru ") == "RU ";
    assert Upper("eru ") == "ERU ";
    assert Upper("peru ") == "PERU ";
  }

  lemma DropMarksPlainPeru()
    ensures DropMarks(Ops, "PERU") == "PERU"
  {
    DropMarksKeepsPlain("PERU");
  }

  /** Surrounding blanks and case do not matter either. */
  lemma PaddedLowerCaseShareKey()
    ensures Normalize(Ops, " peru ") == "PERU"
  {
    UpperPaddedPeru();
    StripPaddedPeru();
    DecomposePlainPeru();
    DropMarksPlainPeru();
    NormalizeStages(" peru ", " PERU ", "PERU", "PERU");
  }

  lemma MarkFirstUnchanged()
    ensures Upper([Acute, ' ', 'A']) == [Acute, ' ', 'A']
    ensures Strip([Acute, ' ', 'A']) == [Acute, ' ', 'A']
    ensures Decompose([Acute, ' ', 'A']) == [Acute, ' ', 'A']
  {
  }

  lemma BlankFirstStripped()
    ensures Upper(" A") == " A"
    ensures Strip(" A") == "A"
    ensures Decompose("A") == "A"
  {
  }

  /** `_normalizar` is not idempotent: a combining mark in front of a blank
      hides the blank from `strip`, and removing the mark exposes it, so a
      second pass changes the key. */
  lemma NormalizeNotIdempotent()
    ensures Normalize(Ops, [Acute, ' ', 'A']) == " A"
    ensures Normalize(Ops, " A") == "A"
  {
    MarkFirstUnchanged();
    NormalizeStages([Acute, ' ', 'A'], [Acute, ' ', 'A'], [Acute, ' ', 'A'], [Acute, ' ', 'A']);
    assert [Acute, ' ', 'A'] == [Acute] + " A";
    DropLeadingMark(Acute, " A");
    BlankFirstStripped();
    NormalizeStages(" A", " A", "A", "A");
    DropMarksKeepsPlain("A");
  }

  /** Capital ASCII letters and blanks: the characters of an already clean key. */
  predicate PlainChar(c: char)
  {
    'A' <= c <= 'Z' || c == ' '
  }

  lemma {:induction false} UpperPlain(s: string)
    requires forall i :: 0 <= i < |s| ==> PlainChar(s[i])
    ensures Upper(s) == s
  {
    if |s| > 0 {
      UpperPlain(s[1..]);
    }
  }

  lemma DecomposeCharPlain(c: char)
    requires PlainChar(c)
    ensures DecomposeChar(c) == [c]
  {
    assert c != 'Á' && c != 'É' && c != 'Í' && c != 'Ó' && c != 'Ú' && c != 'Ñ' && c != 'Ü';
    assert c != 'á' && c != 'é' && c != 'í' && c != 'ó' && c != 'ú' && c != 'ñ' && c != 'ü';
  }

  lemma {:induction false} DecomposePlain(s: string)
    requires forall i :: 0 <= i < |s| ==> PlainChar(s[i])
    ensures Decompose(s) == s
  {
    if |s| > 0 {
      DecomposeCharPlain(s[0]);
      DecomposePlain(s[1..]);
      assert s == [s[0]] + s[1..];
    }
  }

  /** Nothing is stripped from a name that neither starts nor ends with a blank. */
  lemma StripPlain(s: string)
    requires |s| > 0 && !IsSpace(s[0]) && !IsSpace(s[|s| - 1])
    ensures Strip(s) == s
  {
    assert StripLeft(s) == s;
  }

  /** A name already written in capital ASCII letters, with inner blanks
      only, is its own key. */
  lemma NormalizePlain(s: string)
    requires |s| > 0 && s[0] != ' ' && s[|s| - 1] != ' '
    requires forall i :: 0 <= i < |s| ==> PlainChar(s[i])
    ensures Normalize(Ops, s) == s
  {
    UpperPlain(s);
    StripPlain(s);
    DecomposePlain(s);
    NormalizeStages(s, s, s, s);
    assert forall i :: 0 <= i < |s| ==> s[i] < '\U{0300}';
    DropMarksKeepsPlain(s);
  }
}
