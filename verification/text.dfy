/** Python string primitives used by the two normalizers: whitespace,
    upper-casing, `replace()`, `strip()`, `split()` and `" ".join(...)`,
    over `seq<char>`. */
module Text {

  /** Python's `str.isspace()` set, which is what `split()` and `strip()`
      with no argument treat as whitespace. */
  predicate IsSpace(c: char) {
    || c == ' '
    || '\t' <= c <= '\r'
    || '\U{1C}' <= c <= '\U{1F}'
    || c == '\U{85}' || c == '\U{A0}' || c == '\U{1680}'
    || '\U{2000}' <= c <= '\U{200A}'
    || c == '\U{2028}' || c == '\U{2029}' || c == '\U{202F}' || c == '\U{205F}'
    || c == '\U{3000}'
  }

  /** Lower-case letters that `str.upper()` maps one-to-one within
      Basic Latin and Latin-1: a-z and U+00E0..U+00FE except U+00F7. */
  predicate IsLowerLatin(c: char) {
    'a' <= c <= 'z' || ('\U{E0}' <= c <= '\U{FE}' && c != '\U{F7}')
  }

  function UpperChar(c: char): (u: char)
    ensures IsSpace(u) == IsSpace(c)
    ensures !IsLowerLatin(u)
  {
    if IsLowerLatin(c) then (c as int - 32) as char else c
  }

  lemma UpperCharIdempotent(c: char)
    ensures UpperChar(UpperChar(c)) == UpperChar(c)
  {}

  /** `str.upper()`: same length, every character mapped on its own, no
      lower-case letter left, whitespace kept where it was. */
  function Upper(s: string): (r: string)
    ensures |r| == |s|
    ensures forall i :: 0 <= i < |s| ==> r[i] == UpperChar(s[i])
    ensures forall i :: 0 <= i < |r| ==> !IsLowerLatin(r[i])
    ensures forall i :: 0 <= i < |r| ==> IsSpace(r[i]) == IsSpace(s[i])
  {
    seq(|s|, i requires 0 <= i < |s| => UpperChar(s[i]))
  }

  lemma UpperIdempotent(s: string)
    ensures Upper(Upper(s)) == Upper(s)
  {
    forall i | 0 <= i < |s| {
      UpperCharIdempotent(s[i]);
    }
  }

  lemma UpperAppend(a: string, b: string)
    ensures Upper(a + b) == Upper(a) + Upper(b)
  {
    assert forall i :: 0 <= i < |a + b| ==> Upper(a + b)[i] == (Upper(a) + Upper(b))[i];
  }

  /** Every occurrence of `from` replaced by `to` (Python `str.replace` on
      single characters). */
  function ReplaceChar(s: string, from: char, to: char): (r: string)
    ensures |r| == |s|
    ensures forall i :: 0 <= i < |s| ==> r[i] == (if s[i] == from then to else s[i])
    ensures from != to ==> forall i :: 0 <= i < |r| ==> r[i] != from
  {
    seq(|s|, i requires 0 <= i < |s| => if s[i] == from then to else s[i])
  }

  /** Replacing a character that does not occur changes nothing. */
  lemma ReplaceAbsent(s: string, from: char, to: char)
    requires forall i :: 0 <= i < |s| ==> s[i] != from
    ensures ReplaceChar(s, from, to) == s
  {}

  /** No whitespace at either end. */
  predicate Trimmed(s: string) {
    |s| > 0 ==> !IsSpace(s[0]) && !IsSpace(s[|s| - 1])
  }

  /** `lstrip()`: drops exactly the maximal whitespace prefix. */
  function TrimStart(s: string): (r: string)
    ensures |r| <= |s| && r == s[|s| - |r|..]
    ensures |r| > 0 ==> !IsSpace(r[0])
    ensures forall i :: 0 <= i < |s| - |r| ==> IsSpace(s[i])
    decreases |s|
  {
    if |s| > 0 && IsSpace(s[0]) then
      var r := TrimStart(s[1..]);
      assert s[1..][|s| - 1 - |r|..] == s[|s| - |r|..];
      assert forall i :: 1 <= i < |s| - |r| ==> s[i] == s[1..][i - 1];
      r
    else s
  }

  /** `rstrip()`: drops exactly the maximal whitespace suffix. */
  function TrimEnd(s: string): (r: string)
    ensures |r| <= |s| && r == s[..|r|]
    ensures |r| > 0 ==> !IsSpace(r[|r| - 1])
    ensures forall i :: |r| <= i < |s| ==> IsSpace(s[i])
    decreases |s|
  {
    if |s| > 0 && IsSpace(s[|s| - 1]) then
      var r := TrimEnd(s[..|s| - 1]);
      assert s[..|s| - 1][..|r|] == s[..|r|];
      assert forall i :: |r| <= i < |s| - 1 ==> s[i] == s[..|s| - 1][i];
      r
    else s
  }

  /** `r` is the slice `s[a..b]` and everything outside it is whitespace. */
  ghost predicate SliceBetweenSpaces(s: string, r: string, a: int, b: int) {
    && 0 <= a <= b <= |s| && r == s[a..b]
    && (forall i :: 0 <= i < a ==> IsSpace(s[i]))
    && (forall i :: b <= i < |s| ==> IsSpace(s[i]))
  }

  /** `strip()`: the result is the slice of `s` left after removing the
      whitespace at both ends, and leaves an already trimmed string alone. */
  function Strip(s: string): (r: string)
    ensures Trimmed(r)
    ensures exists a, b :: SliceBetweenSpaces(s, r, a, b)
    ensures Trimmed(s) ==> r == s
  {
    var t := TrimStart(s);
    var r := TrimEnd(t);
    SliceBetween(s, t, r);
    r
  }

  /** A whitespace prefix cut from `s`, then a whitespace suffix cut from
      the rest, leaves a slice of `s` with whitespace on either side. */
  lemma SliceBetween(s: string, t: string, r: string)
    requires |t| <= |s| && t == s[|s| - |t|..]
    requires forall i :: 0 <= i < |s| - |t| ==> IsSpace(s[i])
    requires |r| <= |t| && r == t[..|r|]
    requires forall i :: |r| <= i < |t| ==> IsSpace(t[i])
    ensures SliceBetweenSpaces(s, r, |s| - |t|, |s| - |t| + |r|)
  {
    var a := |s| - |t|;
    SliceOfSuffix(s, a, |r|);
    forall i | a + |r| <= i < |s|
      ensures IsSpace(s[i])
    {
      assert s[i] == t[i - a];
    }
  }

  lemma SliceOfSuffix(s: string, a: nat, k: nat)
    requires a + k <= |s|
    ensures s[a..][..k] == s[a..a + k]
  {}

  /** A word as `split()` produces it: non-empty, no whitespace. */
  predicate IsWord(w: string) {
    |w| > 0 && forall i :: 0 <= i < |w| ==> !IsSpace(w[i])
  }

  predicate AllWords(ws: seq<string>) {
    forall i :: 0 <= i < |ws| ==> IsWord(ws[i])
  }

  /** Length of the leading run of non-whitespace characters. */
  function WordLen(s: string): (n: nat)
    ensures n <= |s|
    ensures forall i :: 0 <= i < n ==> !IsSpace(s[i])
    ensures n == |s| || IsSpace(s[n])
  {
    if |s| == 0 || IsSpace(s[0]) then 0 else 1 + WordLen(s[1..])
  }

  /** `split()` with no separator: the maximal whitespace-free runs, in order. */
  function Split(s: string): (ws: seq<string>)
    ensures AllWords(ws)
    decreases |s|
  {
    if |s| == 0 then []
    else if IsSpace(s[0]) then Split(s[1..])
    else
      var n := WordLen(s);
      [s[..n]] + Split(s[n..])
  }

  /** Total length of a list of strings. */
  function TotalLen(ws: seq<string>): nat {
    if |ws| == 0 then 0 else |ws[0]| + TotalLen(ws[1..])
  }

  /** `" ".join(ws)`: the words with one space between neighbours. */
  function Join(ws: seq<string>): (r: string)
    ensures |r| == TotalLen(ws) + (if |ws| == 0 then 0 else |ws| - 1)
  {
    if |ws| == 0 then ""
    else if |ws| == 1 then ws[0]
    else ws[0] + " " + Join(ws[1..])
  }

  /** The string with every whitespace character removed. */
  function RemoveSpaces(s: string): string {
    if |s| == 0 then ""
    else (if IsSpace(s[0]) then "" else [s[0]]) + RemoveSpaces(s[1..])
  }

  /** The strings of a list run together. */
  function Concat(ws: seq<string>): string {
    if |ws| == 0 then "" else ws[0] + Concat(ws[1..])
  }

  /** The shape `" ".join(s.split())` produces: trimmed, every whitespace
      character a plain space, and never two whitespace characters in a row. */
  predicate Canonical(s: string) {
    && Trimmed(s)
    && (forall i :: 0 <= i < |s| && IsSpace(s[i]) ==> s[i] == ' ')
    && (forall i :: 0 <= i < |s| - 1 ==> !(IsSpace(s[i]) && IsSpace(s[i + 1])))
  }

  function UpperWords(ws: seq<string>): (us: seq<string>)
    ensures |us| == |ws|
    ensures forall i :: 0 <= i < |ws| ==> us[i] == Upper(ws[i])
  {
    seq(|ws|, i requires 0 <= i < |ws| => Upper(ws[i]))
  }

  // ---------------------------------------------------------------------
  // Lemmas relating split, join, strip and upper
  // ---------------------------------------------------------------------

  lemma {:induction false} JoinFirstLast(ws: seq<string>)
    requires |ws| > 0 && AllWords(ws)
    ensures |Join(ws)| > 0
    ensures Join(ws)[0] == ws[0][0]
    ensures Join(ws)[|Join(ws)| - 1] == ws[|ws| - 1][|ws[|ws| - 1]| - 1]
    decreases |ws|
  {
    if |ws| > 1 {
      JoinFirstLast(ws[1..]);
    }
  }

  /** Joining words with single spaces yields the canonical shape. */
  lemma {:induction false} JoinCanonical(ws: seq<string>)
    requires AllWords(ws)
    ensures Canonical(Join(ws))
    decreases |ws|
  {
    if |ws| > 1 {
      var w, j := ws[0], Join(ws[1..]);
      JoinCanonical(ws[1..]);
      JoinFirstLast(ws[1..]);
      JoinFirstLast(ws);
      var s := w + " " + j;
      assert s == Join(ws);
      forall i | 0 <= i < |s| && IsSpace(s[i])
        ensures s[i] == ' '
      {
        if i > |w| {
          assert s[i] == j[i - |w| - 1];
        }
      }
      forall i | 0 <= i < |s| - 1
        ensures !(IsSpace(s[i]) && IsSpace(s[i + 1]))
      {
        if i > |w| {
          assert s[i] == j[i - |w| - 1] && s[i + 1] == j[i - |w|];
        } else if i == |w| {
          assert s[i + 1] == j[0];
        }
      }
    }
  }

  /** A word followed by whitespace (or nothing) is split off as one word. */
  lemma SplitWordThen(w: string, t: string)
    requires IsWord(w)
    requires |t| == 0 || IsSpace(t[0])
    ensures Split(w + t) == [w] + Split(t)
  {
    var s := w + t;
    var n := WordLen(s);
    assert forall i :: 0 <= i < |w| ==> s[i] == w[i];
    assert |w| == |s| || s[|w|] == t[0];
    assert n == |w|;
    assert s[..n] == w && s[n..] == t;
  }

  /** Leading whitespace is skipped by `split()`. */
  lemma SplitLeadingSpace(t: string)
    requires |t| > 0 && IsSpace(t[0])
    ensures Split(t) == Split(t[1..])
  {}

  /** A string starting with a non-space character splits off its leading
      run first. */
  lemma SplitAtWord(s: string)
    requires |s| > 0 && !IsSpace(s[0])
    ensures Split(s) == [s[..WordLen(s)]] + Split(s[WordLen(s)..])
  {}

  /** A leading run ends where the first whitespace character is, whatever
      follows it. */
  lemma {:induction false} WordLenPrefix(a: string, t: string)
    requires |t| == 0 || IsSpace(t[0])
    ensures WordLen(a + t) == WordLen(a)
    decreases |a|
  {
    if |a| > 0 && !IsSpace(a[0]) {
      assert (a + t)[1..] == a[1..] + t;
      WordLenPrefix(a[1..], t);
    }
  }

  /** A string with no word in it splits into nothing. */
  lemma {:induction false} SplitAllSpaces(s: string)
    requires forall i :: 0 <= i < |s| ==> IsSpace(s[i])
    ensures Split(s) == []
    decreases |s|
  {
    if |s| > 0 {
      SplitAllSpaces(s[1..]);
    }
  }

  /** `split()` breaks at every whitespace character: the words on either
      side of one are split separately and never run together. With
      `SplitAllSpaces` and `SplitSingleWord` this fixes every result. */
  lemma {:induction false} SplitAtSpace(a: string, c: char, b: string)
    requires IsSpace(c)
    ensures Split(a + [c] + b) == Split(a) + Split(b)
    decreases |a|
  {
    if |a| == 0 {
      assert a == [];
      SplitAfterSpace(c, b);
    } else if IsSpace(a[0]) {
      AppendAssoc(a, [c], b);
      AppendAssoc(a[1..], [c], b);
      SplitDropSpace(a, [c] + b);
      SplitAtSpace(a[1..], c, b);
    } else {
      var n := WordLen(a);
      AppendAssoc(a, [c], b);
      AppendAssoc(a[n..], [c], b);
      SplitDropWord(a, [c] + b);
      SplitAtSpace(a[n..], c, b);
    }
  }

  /** A leading whitespace character contributes no word. */
  lemma SplitAfterSpace(c: char, b: string)
    requires IsSpace(c)
    ensures Split([] + [c] + b) == Split(b)
  {
    var s := [] + [c] + b;
    SplitLeadingSpace(s);
    assert s[1..] == b;
  }

  /** Dropping a leading whitespace character of `a` changes neither the
      split of `a` nor that of `a` followed by `t`. */
  lemma SplitDropSpace(a: string, t: string)
    requires |a| > 0 && IsSpace(a[0])
    ensures Split(a) == Split(a[1..])
    ensures Split(a + t) == Split(a[1..] + t)
  {
    SplitLeadingSpace(a);
    SplitLeadingSpace(a + t);
    assert (a + t)[1..] == a[1..] + t;
  }

  /** When `t` is empty or starts with whitespace, the leading word of `a`
      is the first word of both `a` and `a + t`. */
  lemma SplitDropWord(a: string, t: string)
    requires |a| > 0 && !IsSpace(a[0])
    requires |t| == 0 || IsSpace(t[0])
    ensures Split(a) == [a[..WordLen(a)]] + Split(a[WordLen(a)..])
    ensures Split(a + t) == [a[..WordLen(a)]] + Split(a[WordLen(a)..] + t)
  {
    SplitAtWord(a);
    SplitPastWord(a, t);
  }

  /** The leading word of `a` is split off first when `a` is followed by
      nothing or by whitespace. */
  lemma SplitPastWord(a: string, t: string)
    requires |a| > 0 && !IsSpace(a[0])
    requires |t| == 0 || IsSpace(t[0])
    ensures Split(a + t) == [a[..WordLen(a)]] + Split(a[WordLen(a)..] + t)
  {
    var n := WordLen(a);
    WordLenPrefix(a, t);
    SplitAtWord(a + t);
    AppendSlices(a, t, n);
  }

  /** Cutting `a + t` inside `a` cuts `a` alone. */
  lemma AppendSlices(a: string, t: string, n: nat)
    requires n <= |a|
    ensures (a + t)[..n] == a[..n] && (a + t)[n..] == a[n..] + t
  {}

  /** A word, a space, then anything: the word is split off first. */
  lemma SplitWordSpace(w: string, j: string)
    requires IsWord(w)
    ensures Split(w + " " + j) == [w] + Split(j)
  {
    AppendAssoc(w, " ", j);
    SplitWordThen(w, " " + j);
    SplitLeadingSpace(" " + j);
    assert (" " + j)[1..] == j;
  }

  lemma AppendAssoc(a: string, b: string, c: string)
    ensures a + b + c == a + (b + c)
  {}

  /** `split()` undoes `" ".join(...)` on words. */
  lemma {:induction false} SplitJoin(ws: seq<string>)
    requires AllWords(ws)
    ensures Split(Join(ws)) == ws
    decreases |ws|
  {
    if |ws| == 1 {
      SplitWordThen(ws[0], "");
      assert ws[0] + "" == ws[0];
    } else if |ws| > 1 {
      SplitJoin(ws[1..]);
      SplitWordSpace(ws[0], Join(ws[1..]));
      assert [ws[0]] + ws[1..] == ws;
    }
  }

  /** A canonical string that goes on past its first word continues with
      one space and a canonical, non-empty rest. */
  lemma CanonicalRest(s: string)
    requires Canonical(s) && 0 < |s| && WordLen(s) < |s|
    ensures 0 < WordLen(s) && WordLen(s) + 1 < |s|
    ensures s[WordLen(s)] == ' '
    ensures Canonical(s[WordLen(s) + 1..])
    ensures !IsSpace(s[WordLen(s) + 1])
  {
    var n := WordLen(s);
    assert n > 0;
    assert s[n] == ' ';
    assert n < |s| - 1;
    var t := s[n + 1..];
    assert t[|t| - 1] == s[|s| - 1];
    assert forall i :: 0 <= i < |t| ==> t[i] == s[n + 1 + i];
  }

  /** After its first word, `split()` of a canonical string is the split of
      what follows the single separating space, which is not empty. */
  lemma SplitCanonicalStep(s: string)
    requires Canonical(s) && 0 < |s| && WordLen(s) < |s|
    ensures WordLen(s) + 1 < |s|
    ensures Split(s) == [s[..WordLen(s)]] + Split(s[WordLen(s) + 1..])
    ensures |Split(s[WordLen(s) + 1..])| > 0
  {
    CanonicalRest(s);
    var n := WordLen(s);
    var t := s[n + 1..];
    assert s[n..][1..] == t;
    assert Split(s[n..]) == Split(t);
    assert Split(t) == [t[..WordLen(t)]] + Split(t[WordLen(t)..]);
  }

  /** `" ".join` of a word in front of a non-empty list. */
  lemma JoinCons(w: string, ws: seq<string>)
    requires |ws| > 0
    ensures Join([w] + ws) == w + " " + Join(ws)
  {
    assert ([w] + ws)[1..] == ws;
  }

  /** A string consisting of one word splits into just that word. */
  lemma SplitSingleWord(s: string)
    requires 0 < |s| && WordLen(s) == |s|
    ensures Split(s) == [s]
  {
    assert !IsSpace(s[0]);
    assert s[..|s|] == s;
    assert s[|s|..] == [];
  }

  /** A word, one space and the join of the rest reassemble `s`. */
  lemma JoinStep(s: string, n: nat, ws: seq<string>)
    requires n + 1 < |s| && s[n] == ' ' && |ws| > 0
    requires Join(ws) == s[n + 1..]
    ensures Join([s[..n]] + ws) == s
  {
    JoinCons(s[..n], ws);
    assert s == s[..n] + [s[n]] + s[n + 1..];
  }

  /** `" ".join(ws)` is the one canonical string that splits into `ws`. */
  lemma JoinUnique(ws: seq<string>, s: string)
    requires Canonical(s) && Split(s) == ws
    ensures s == Join(ws)
  {
    JoinSplitCanonical(s);
  }

  /** `" ".join(s.split())` leaves a canonical string unchanged. */
  lemma {:induction false} JoinSplitCanonical(s: string)
    requires Canonical(s)
    ensures Join(Split(s)) == s
    decreases |s|
  {
    if |s| > 0 {
      var n := WordLen(s);
      if n == |s| {
        SplitSingleWord(s);
      } else {
        CanonicalRest(s);
        SplitCanonicalStep(s);
        JoinSplitCanonical(s[n + 1..]);
        JoinStep(s, n, Split(s[n + 1..]));
      }
    }
  }

  lemma {:induction false} UpperJoin(ws: seq<string>)
    ensures Upper(Join(ws)) == Join(UpperWords(ws))
    decreases |ws|
  {
    if |ws| > 1 {
      UpperJoin(ws[1..]);
      UpperAppend(ws[0] + " ", Join(ws[1..]));
      UpperAppend(ws[0], " ");
      assert UpperWords(ws)[1..] == UpperWords(ws[1..]);
    }
  }

  lemma UpperWordsKeepsWords(ws: seq<string>)
    requires AllWords(ws)
    ensures AllWords(UpperWords(ws))
  {}

  lemma {:induction false} RemoveSpacesAppend(a: string, b: string)
    ensures RemoveSpaces(a + b) == RemoveSpaces(a) + RemoveSpaces(b)
    decreases |a|
  {
    if |a| > 0 {
      assert (a + b)[1..] == a[1..] + b;
      RemoveSpacesAppend(a[1..], b);
    } else {
      assert a + b == b;
    }
  }

  lemma {:induction false} RemoveSpacesWord(w: string)
    requires forall i :: 0 <= i < |w| ==> !IsSpace(w[i])
    ensures RemoveSpaces(w) == w
    decreases |w|
  {
    if |w| > 0 {
      RemoveSpacesWord(w[1..]);
    }
  }

  lemma ConcatCons(w: string, ws: seq<string>)
    ensures Concat([w] + ws) == w + Concat(ws)
  {
    assert ([w] + ws)[1..] == ws;
  }

  /** `split()` loses only whitespace: its words run together are the
      input's non-whitespace characters, in order. */
  lemma {:induction false} SplitKeepsText(s: string)
    ensures Concat(Split(s)) == RemoveSpaces(s)
    decreases |s|
  {
    if |s| > 0 {
      if IsSpace(s[0]) {
        SplitKeepsText(s[1..]);
      } else {
        var n := WordLen(s);
        SplitKeepsText(s[n..]);
        SplitAtWord(s);
        ConcatCons(s[..n], Split(s[n..]));
        RemoveSpacesAppend(s[..n], s[n..]);
        RemoveSpacesWord(s[..n]);
        assert s[..n] + s[n..] == s;
      }
    }
  }
}
