/** `clasificar_cambio`: the ordered first-match rule list that labels how a
    legislator's vote moved between the two events. */
module Change {
  import opened Normalize

  /** The six labels the classifier can return. */
  datatype Category =
    | Unchanged          // "Se mantiene"
    | FlipFavorContra    // "Cambia opinión Favor/Contra"
    | Activated          // "Se activa (no votaba → vota)"
    | Deactivated        // "Se desactiva (votaba → no vota)"
    | NonVoteTypeChange  // "Cambia tipo de no voto"
    | OtherChange        // "Otro cambio"
  {
    /** The text stored in the `categoria_cambio` column. */
    function Label(): string {
      match this
      case Unchanged => "Se mantiene"
      case FlipFavorContra => "Cambia opinión Favor/Contra"
      case Activated => "Se activa (no votaba → vota)"
      case Deactivated => "Se desactiva (votaba → no vota)"
      case NonVoteTypeChange => "Cambia tipo de no voto"
      case OtherChange => "Otro cambio"
    }

    /** The category of the same pair read in the opposite direction. */
    function Reversed(): Category {
      match this
      case Activated => Deactivated
      case Deactivated => Activated
      case _ => this
    }
  }

  /** Distinct categories are stored under distinct labels. */
  lemma LabelInjective(a: Category, b: Category)
    ensures a.Label() == b.Label() <==> a == b
  {
    assert Unchanged.Label()[0] != OtherChange.Label()[0];
  }

  /** `v in ["A FAVOR", "EN CONTRA"]`. */
  predicate IsVoting(v: string) {
    v == FAVOR || v == CONTRA
  }

  /** `v in ["AUSENTE", "LICENCIA"]`. */
  predicate IsNonVoting(v: string) {
    v == AUSENTE || v == LICENCIA
  }

  lemma RecognizedSplits(v: string)
    ensures Recognized(v) <==> IsVoting(v) || IsNonVoting(v)
    ensures !(IsVoting(v) && IsNonVoting(v))
  {
    EstadosDistinct();
  }

  /** The rules in source order; the first that matches wins. Each result is
      also characterised on its own, without reference to the order. */
  function ClassifyChange(v1: string, v2: string): (c: Category)
    ensures c == Unchanged <==> v1 == v2
    ensures c == FlipFavorContra <==> (v1 == FAVOR && v2 == CONTRA) || (v1 == CONTRA && v2 == FAVOR)
    ensures c == Activated <==> IsNonVoting(v1) && IsVoting(v2)
    ensures c == Deactivated <==> IsVoting(v1) && IsNonVoting(v2)
    ensures c == NonVoteTypeChange <==> IsNonVoting(v1) && IsNonVoting(v2) && v1 != v2
    ensures c == OtherChange <==> v1 != v2 && !(Recognized(v1) && Recognized(v2))
  {
    EstadosDistinct();
    if v1 == v2 then Unchanged
    else if (v1 == FAVOR && v2 == CONTRA) || (v1 == CONTRA && v2 == FAVOR) then FlipFavorContra
    else if IsNonVoting(v1) && IsVoting(v2) then Activated
    else if IsVoting(v1) && IsNonVoting(v2) then Deactivated
    else if IsNonVoting(v1) && IsNonVoting(v2) then NonVoteTypeChange
    else OtherChange
  }

  /** Equal values never count as a change, whether recognised or not. */
  lemma SameVoteUnchanged(v: string)
    ensures ClassifyChange(v, v) == Unchanged
  {}

  /** Both directions of a favor/against swap get the same label. */
  lemma FlipIsSymmetric()
    ensures ClassifyChange(FAVOR, CONTRA) == FlipFavorContra
    ensures ClassifyChange(CONTRA, FAVOR) == FlipFavorContra
  {
    EstadosDistinct();
  }

  /** An unequal pair with an unrecognised side always falls through to
      "Otro cambio"; no activation rule can fire for it. */
  lemma UnrecognizedIsOther(v1: string, v2: string)
    requires v1 != v2
    requires !Recognized(v1) || !Recognized(v2)
    ensures ClassifyChange(v1, v2) == OtherChange
  {}

  /** Reading the pair backwards swaps activation and deactivation and keeps
      every other label. */
  lemma {:induction false} ClassifySwap(v1: string, v2: string)
    ensures ClassifyChange(v2, v1) == ClassifyChange(v1, v2).Reversed()
  {
    RecognizedSplits(v1);
    RecognizedSplits(v2);
  }
}
