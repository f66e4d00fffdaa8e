/** Worked examples: concrete inputs pushed through the model. */
module Scenarios {
  import opened Text
  import opened Normalize
  import opened Change
  import opened Tables
  import opened Aggregates
  import opened Outcome

  // The examples take their input as a parameter so that the verifier
  // reasons about `Strip` and `Split` step by step instead of unrolling
  // them on a literal.

  lemma TrimStartExample(s: string)
    requires s == " á favor\n"
    ensures TrimStart(s) == s[1..]
  {
    assert IsSpace(s[0]) && !IsSpace(s[1]);
    assert TrimStart(s[1..]) == s[1..];
  }

  lemma TrimEndExample(t: string)
    requires t == "á favor\n"
    ensures TrimEnd(t) == t[..7]
  {
    assert IsSpace(t[7]) && !IsSpace(t[6]);
    assert TrimEnd(t[..7]) == t[..7];
  }

  lemma StripExample(s: string)
    requires s == " á favor\n"
    ensures Strip(s) == "á favor"
  {
    TrimStartExample(s);
    TrimEndExample(s[1..]);
    assert s[1..][..7] == "á favor";
  }

  lemma UpperExample()
    ensures Upper("á favor") == "Á FAVOR"
  {
    assert forall i :: 0 <= i < 7 ==> Upper("á favor")[i] == "Á FAVOR"[i];
  }

  lemma ReplaceExample()
    ensures ReplaceChar("Á FAVOR", 'Á', 'A') == FAVOR
  {
    assert forall i :: 0 <= i < 7 ==> ReplaceChar("Á FAVOR", 'Á', 'A')[i] == FAVOR[i];
  }

  /** Surrounding whitespace and case do not matter, and `á` becomes `A`. */
  lemma StateExample(s: string)
    requires s == " á favor\n"
    ensures NormalizeState(s) == FAVOR
  {
    StripExample(s);
    UpperExample();
    ReplaceExample();
  }

  lemma SplitTail(s: string)
    requires s == "  Bloque   Unidad\n"
    ensures Split(s[8..]) == ["Unidad"]
  {
    assert Split(s[17..]) == [] by {
      assert IsSpace(s[17]) && s[17..][1..] == [];
    }
    SplitWordThen("Unidad", s[17..]);
    assert "Unidad" + s[17..] == s[11..];
    assert Split(s[10..]) == Split(s[11..]) by {
      assert IsSpace(s[10]) && s[10..][1..] == s[11..];
    }
    assert Split(s[9..]) == Split(s[10..]) by {
      assert IsSpace(s[9]) && s[9..][1..] == s[10..];
    }
    assert Split(s[8..]) == Split(s[9..]) by {
      assert IsSpace(s[8]) && s[8..][1..] == s[9..];
    }
  }

  lemma SplitFirstWord(s: string)
    requires s == "  Bloque   Unidad\n"
    ensures Split(s[2..]) == ["Bloque"] + Split(s[8..])
  {
    SplitWordThen("Bloque", s[8..]);
    assert "Bloque" + s[8..] == s[2..];
  }

  lemma SplitHead(s: string)
    requires s == "  Bloque   Unidad\n"
    ensures Split(s) == ["Bloque"] + Split(s[8..])
  {
    SplitFirstWord(s);
    assert Split(s[1..]) == Split(s[2..]) by {
      assert IsSpace(s[1]) && s[1..][1..] == s[2..];
    }
    assert Split(s) == Split(s[1..]) by {
      assert IsSpace(s[0]);
    }
  }

  lemma UpperWordsExample()
    ensures UpperWords(["Bloque", "Unidad"]) == ["BLOQUE", "UNIDAD"]
  {
    assert forall i :: 0 <= i < 6 ==> Upper("Bloque")[i] == "BLOQUE"[i];
    assert forall i :: 0 <= i < 6 ==> Upper("Unidad")[i] == "UNIDAD"[i];
    assert Upper("Bloque") == "BLOQUE" && Upper("Unidad") == "UNIDAD";
  }

  lemma JoinExample()
    ensures Join(["BLOQUE", "UNIDAD"]) == "BLOQUE UNIDAD"
  {
    assert ["BLOQUE", "UNIDAD"][1..] == ["UNIDAD"];
  }

  /** Internal runs of whitespace collapse to one space. */
  lemma BlockExample(s: string)
    requires s == "  Bloque   Unidad\n"
    ensures NormalizeBlock(s) == "BLOQUE UNIDAD"
  {
    SplitHead(s);
    SplitTail(s);
    UpperWordsExample();
    JoinSplitCanonical(NormalizeBlock(s));
    JoinExample();
  }

  const Scenario: seq<Row> := [
    Row("Diputado 1", "Bloque A", "BLOQUE A", FAVOR, CONTRA, None),
    Row("Diputado 2", "Bloque A", "BLOQUE A", AUSENTE, FAVOR, None),
    Row("Diputado 3", "Bloque B", "BLOQUE B", LICENCIA, LICENCIA, None)
  ]

  /** Three legislators: a flip, an activation and an unchanged leave. */
  lemma ScenarioCategories()
    ensures AddChangeCategory(Table(false, Scenario)).rows
            == [ WithCategory(Scenario[0]), WithCategory(Scenario[1]), WithCategory(Scenario[2]) ]
    ensures ClassifyChange(FAVOR, CONTRA) == FlipFavorContra
    ensures ClassifyChange(AUSENTE, FAVOR) == Activated
    ensures ClassifyChange(LICENCIA, LICENCIA) == Unchanged
  {
    EstadosDistinct();
  }

  /** Counting over a three-row table, row by row. */
  lemma CountIfThree(a: Row, b: Row, c: Row, p: Row -> bool)
    ensures CountIf([a, b, c], p)
            == (if p(a) then 1 else 0) + (if p(b) then 1 else 0) + (if p(c) then 1 else 0)
  {
    assert [a, b, c][1..] == [b, c];
    assert [b, c][1..] == [c];
  }

  // The count lemmas take the table as a parameter for the same reason.

  lemma ScenarioFirstCounts(rows: seq<Row>)
    requires rows == Scenario
    ensures CountsByState(rows).first == StateCounts(1, 0, 1, 1)
  {
    EstadosDistinct();
    var x, y, z := rows[0], rows[1], rows[2];
    assert rows == [x, y, z];
    CountIfThree(x, y, z, VoteIs(First, FAVOR));
    CountIfThree(x, y, z, VoteIs(First, CONTRA));
    CountIfThree(x, y, z, VoteIs(First, AUSENTE));
    CountIfThree(x, y, z, VoteIs(First, LICENCIA));
    assert CountIf(rows, VoteIs(First, FAVOR)) == 1;
    assert CountIf(rows, VoteIs(First, CONTRA)) == 0;
    assert CountIf(rows, VoteIs(First, AUSENTE)) == 1;
    assert CountIf(rows, VoteIs(First, LICENCIA)) == 1;
  }

  lemma ScenarioSecondCounts(rows: seq<Row>)
    requires rows == Scenario
    ensures CountsByState(rows).second == StateCounts(1, 1, 0, 1)
  {
    EstadosDistinct();
    var x, y, z := rows[0], rows[1], rows[2];
    assert rows == [x, y, z];
    CountIfThree(x, y, z, VoteIs(Second, FAVOR));
    CountIfThree(x, y, z, VoteIs(Second, CONTRA));
    CountIfThree(x, y, z, VoteIs(Second, AUSENTE));
    CountIfThree(x, y, z, VoteIs(Second, LICENCIA));
    assert CountIf(rows, VoteIs(Second, FAVOR)) == 1;
    assert CountIf(rows, VoteIs(Second, CONTRA)) == 1;
    assert CountIf(rows, VoteIs(Second, AUSENTE)) == 0;
    assert CountIf(rows, VoteIs(Second, LICENCIA)) == 1;
  }

  lemma ScenarioKpis(rows: seq<Row>)
    requires rows == Scenario
    ensures BasicKpis(rows) == Kpis(1, 1, 0, 0, 1)
  {
    EstadosDistinct();
    var x, y, z := rows[0], rows[1], rows[2];
    assert rows == [x, y, z];
    CountIfThree(x, y, z, SameVote);
    CountIfThree(x, y, z, Transition(FAVOR, CONTRA));
    CountIfThree(x, y, z, Transition(CONTRA, FAVOR));
    CountIfThree(x, y, z, Deactivating);
    CountIfThree(x, y, z, Activating);
  }

  /** One favor against one against in the second vote: a tie. */
  lemma ScenarioVerdict(rows: seq<Row>)
    requires rows == Scenario
    ensures GlobalResult(CountsByState(rows).second.favor,
                         CountsByState(rows).second.contra).0 == "EMPATE"
  {
    ScenarioSecondCounts(rows);
  }
}
