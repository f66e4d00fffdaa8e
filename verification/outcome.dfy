/** `resultado_global`: the banner shown for the second vote, chosen by
    comparing its favor and against counts. */
module Outcome {

  datatype Verdict = Approved | Rejected | Tie {
    function Text(): string {
      match this
      case Approved => "APROBADO"
      case Rejected => "NO APROBADO"
      case Tie => "EMPATE"
    }

    function Background(): string {
      match this
      case Approved => "#d5f5dd"
      case Rejected => "#f8d6d6"
      case Tie => "#e2e2e2"
    }

    function Foreground(): string {
      match this
      case Approved => "#1a7a33"
      case Rejected => "#b32121"
      case Tie => "#444444"
    }

    /** The verdict with the two counts exchanged. */
    function Swapped(): Verdict {
      match this
      case Approved => Rejected
      case Rejected => Approved
      case Tie => Tie
    }
  }

  /** Exactly one verdict applies, each by its own comparison. */
  function Resolve(favor: int, contra: int): (v: Verdict)
    ensures v == Approved <==> favor > contra
    ensures v == Rejected <==> contra > favor
    ensures v == Tie <==> favor == contra
  {
    if favor > contra then Approved
    else if contra > favor then Rejected
    else Tie
  }

  /** The `(texto, fondo, color)` triple the banner is drawn with: the text
      says which comparison held, and each text comes with its own colours. */
  function GlobalResult(favor: int, contra: int): (r: (string, string, string))
    ensures r.0 == "APROBADO" <==> favor > contra
    ensures r.0 == "NO APROBADO" <==> contra > favor
    ensures r.0 == "EMPATE" <==> favor == contra
    ensures r.0 == "APROBADO" ==> r.1 == "#d5f5dd" && r.2 == "#1a7a33"
    ensures r.0 == "NO APROBADO" ==> r.1 == "#f8d6d6" && r.2 == "#b32121"
    ensures r.0 == "EMPATE" ==> r.1 == "#e2e2e2" && r.2 == "#444444"
  {
    var v := Resolve(favor, contra);
    assert "APROBADO"[0] != "NO APROBADO"[0] && "APROBADO"[0] != "EMPATE"[0];
    (v.Text(), v.Background(), v.Foreground())
  }

  /** Exchanging the counts exchanges approval and rejection. */
  lemma {:induction false} ResolveSwap(favor: int, contra: int)
    ensures Resolve(contra, favor) == Resolve(favor, contra).Swapped()
  {}
}
