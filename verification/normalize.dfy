/** The two per-cell normalizers applied when a sheet is loaded:
    `normalizar_estado` for the vote columns and `normalizar_bloque` for
    the block column. */
module Normalize {
  import opened Text

  /** The four recognised vote labels, in the order of `ESTADOS`. */
  const FAVOR: string := "A FAVOR"
  const CONTRA: string := "EN CONTRA"
  const AUSENTE: string := "AUSENTE"
  const LICENCIA: string := "LICENCIA"
  const ESTADOS: seq<string> := [FAVOR, CONTRA, AUSENTE, LICENCIA]

  predicate Recognized(v: string) {
    v in ESTADOS
  }

  /** The four labels are pairwise distinct. */
  lemma EstadosDistinct()
    ensures FAVOR != CONTRA && FAVOR != AUSENTE && FAVOR != LICENCIA
    ensures CONTRA != AUSENTE && CONTRA != LICENCIA && AUSENTE != LICENCIA
  {
    assert FAVOR[1] != AUSENTE[1];
  }

  lemma RecognizedCases(v: string)
    ensures Recognized(v) <==> v == FAVOR || v == CONTRA || v == AUSENTE || v == LICENCIA
  {}

  // ---------------------------------------------------------------------
  // normalizar_estado
  // ---------------------------------------------------------------------

  /** Strip, upper-case, then replace the one accented capital the data
      contains, `Á`, by `A`. */
  function CleanState(raw: string): string {
    ReplaceChar(Upper(Strip(raw)), 'Á', 'A')
  }

  /** The `for e in ESTADOS: if s == e: return e` loop, falling back to `s`.
      Whatever the list, the answer is `s` itself. */
  function FirstMatch(s: string, es: seq<string>): (r: string)
    ensures r == s
    ensures r in es <==> s in es
  {
    if |es| == 0 then s
    else if s == es[0] then es[0]
    else FirstMatch(s, es[1..])
  }

  function NormalizeState(raw: string): (r: string)
    ensures r == CleanState(raw)
    ensures Recognized(r) <==> Recognized(CleanState(raw))
  {
    FirstMatch(CleanState(raw), ESTADOS)
  }

  /** The character-wise effect of the cleaning, after stripping. */
  function CleanChar(c: char): (d: char)
    ensures IsSpace(d) == IsSpace(c)
    ensures UpperChar(d) == d
    ensures d != 'Á'
  {
    UpperCharIdempotent(c);
    if UpperChar(c) == 'Á' then 'A' else UpperChar(c)
  }

  lemma CleanStateChars(raw: string)
    ensures |CleanState(raw)| == |Strip(raw)|
    ensures forall i :: 0 <= i < |Strip(raw)| ==> CleanState(raw)[i] == CleanChar(Strip(raw)[i])
  {}

  /** The cleaned value is trimmed, upper-case and accent-free. */
  lemma CleanStateIsClean(raw: string)
    ensures Trimmed(CleanState(raw))
    ensures Upper(CleanState(raw)) == CleanState(raw)
    ensures forall i :: 0 <= i < |CleanState(raw)| ==> CleanState(raw)[i] != 'Á'
  {
    var s, c := Strip(raw), CleanState(raw);
    CleanStateChars(raw);
    if |c| > 0 {
      assert c[0] == CleanChar(s[0]) && c[|c| - 1] == CleanChar(s[|s| - 1]);
    }
    assert forall i :: 0 <= i < |c| ==> Upper(c)[i] == c[i];
  }

  /** `normalizar_estado` is idempotent, on every input and not only on the
      recognised ones. */
  lemma {:induction false} NormalizeStateIdempotent(raw: string)
    ensures NormalizeState(NormalizeState(raw)) == NormalizeState(raw)
  {
    var c := CleanState(raw);
    CleanStateIsClean(raw);
    assert Strip(c) == c;
    ReplaceAbsent(c, 'Á', 'A');
    assert CleanState(c) == ReplaceChar(Upper(c), 'Á', 'A') == c;
  }

  /** Each recognised label is its own normal form. */
  lemma EstadosAreFixed(e: string)
    requires Recognized(e)
    ensures NormalizeState(e) == e
  {
    assert Trimmed(e);
    assert Upper(e) == e;
    assert ReplaceChar(e, 'Á', 'A') == e;
  }

  // ---------------------------------------------------------------------
  // normalizar_bloque
  // ---------------------------------------------------------------------

  /** `" ".join(str(s).split())`, then `strip()`, then `upper()`. The result
      is canonical (see `Text.Canonical`) and its words are exactly the
      input's words, upper-cased, in order. */
  function NormalizeBlock(raw: string): (r: string)
    ensures Canonical(r)
    ensures Split(r) == UpperWords(Split(raw))
    ensures Upper(r) == r
  {
    var ws := Split(raw);
    JoinCanonical(ws);
    UpperJoin(ws);
    UpperWordsKeepsWords(ws);
    JoinCanonical(UpperWords(ws));
    SplitJoin(UpperWords(ws));
    UpperIdempotent(Join(ws));
    Upper(Strip(Join(ws)))
  }

  lemma {:induction false} NormalizeBlockIdempotent(raw: string)
    ensures NormalizeBlock(NormalizeBlock(raw)) == NormalizeBlock(raw)
  {
    var r := NormalizeBlock(raw);
    JoinSplitCanonical(r);
    assert Strip(Join(Split(r))) == r;
  }

  /** A block name is left unchanged exactly when it is already canonical and
      upper-case. */
  lemma {:induction false} NormalizeBlockFixedPoints(s: string)
    ensures NormalizeBlock(s) == s <==> Canonical(s) && Upper(s) == s
  {
    if Canonical(s) && Upper(s) == s {
      JoinSplitCanonical(s);
    }
  }
}
