/** A correction: the reversal that undoes a fact and the replacement that takes its place. */
module Corrections {
  import opened Wrappers
  import opened Facts
  import opened Balances

  datatype Correction = Correction(
    id: nat, portfolio: nat, original: nat, reversal: nat, replacement: nat, actor: nat, createdAt: Instant)

  datatype CorrectionError =
    | NotATransaction
    | NotCorrectable
    | AlreadyCorrected
    | InvalidCorrection
    | InvalidFact(error: FactError)

  function RehydrateCorrection(c: Correction): (r: Result<Correction, CorrectionError>)
  {
    if c.id == 0 || c.portfolio == 0 || c.original == 0 || c.reversal == 0 || c.replacement == 0 || c.actor == 0
       || !IsWholeMicrosecond(c.createdAt)
       || c.original == c.reversal || c.original == c.replacement || c.reversal == c.replacement
    then Failure(InvalidCorrection)
    else Success(c)
  }

  function ValidateCorrectionTarget(original: Fact, hasDirectCorrection: bool): (error: Option<CorrectionError>)
    ensures error.None? <==> original.id != 0 && !original.kind.Reversal? && !hasDirectCorrection
  {
    if original.id == 0 then Some(NotATransaction)
    else if original.kind.Reversal? then Some(NotCorrectable)
    else if hasDirectCorrection then Some(AlreadyCorrected)
    else None
  }

  datatype CorrectionFacts = CorrectionFacts(reversal: Fact, replacement: Fact, relationship: Correction)

  datatype CorrectionInput = CorrectionInput(
    original: Fact,
    hasDirectCorrection: bool,
    replacement: Command,
    correctionId: nat,
    reversalId: nat,
    replacementId: nat,
    actor: nat,
    reversalSequence: int,
    replacementSequence: int,
    createdAt: Instant)

  function BuildCorrection(input: CorrectionInput): (r: Result<CorrectionFacts, CorrectionError>)
    ensures r.Success? ==> IsCorrectionOf(input, r.value)
  {
    var original := input.original;
    var target := ValidateCorrectionTarget(original, input.hasDirectCorrection);
    if target.Some? then Failure(target.value)
    else if !ValidCommand(input.replacement) || input.reversalSequence <= 0
            || input.replacementSequence <= input.reversalSequence
            || input.reversalId == original.id || input.replacementId == original.id
    then Failure(InvalidCorrection)
    else
      var relationship := RehydrateCorrection(
        Correction(input.correctionId, original.portfolio, original.id, input.reversalId, input.replacementId,
                   input.actor, input.createdAt));
      if relationship.Failure? then Failure(relationship.error)
      else
        var reversal := original.(
          id := input.reversalId, createdBy := input.actor, kind := Reversal, sequence := input.reversalSequence,
          note := None, reference := None, reversalOf := original.id, correctionOf := 0,
          originatingCorrection := input.correctionId, createdAt := input.createdAt);
        if !Rehydrates(reversal) then Failure(InvalidFact(InvalidTransaction))
        else
          var created := NewFactFromCommand(input.replacementId, original.portfolio, input.actor,
                                            input.replacementSequence, input.createdAt, input.replacement);
          if created.Failure? then Failure(InvalidFact(created.error))
          else
            var replacement := created.value.(correctionOf := original.id, originatingCorrection := input.correctionId);
            if !Rehydrates(replacement) then Failure(InvalidFact(InvalidTransaction))
            else Success(CorrectionFacts(reversal, replacement, relationship.value))
  }

  /** What a correction of input.original must look like. */
  predicate IsCorrectionOf(input: CorrectionInput, facts: CorrectionFacts) {
    var o, r, p, c := input.original, facts.reversal, facts.replacement, facts.relationship;
    && !o.kind.Reversal? && !input.hasDirectCorrection
    && Rehydrates(r) && Rehydrates(p)
    && r.kind.Reversal? && IsOriginalOf(o, r)
    && r.id == input.reversalId && r.sequence == input.reversalSequence
    && !p.kind.Reversal? && p.portfolio == o.portfolio && p.correctionOf == o.id
    && p.id == input.replacementId && p.sequence == input.replacementSequence
    && p.kind == input.replacement.kind && p.asset == input.replacement.asset
      && p.quantity == input.replacement.quantity
    && p.unitPrice == input.replacement.unitPrice && p.fee == input.replacement.fee
    && p.amount == input.replacement.amount && p.currency == input.replacement.currency
    && p.effectiveAt == input.replacement.effectiveAt
    && p.note == input.replacement.note && p.reference == input.replacement.reference
    && r.createdBy == p.createdBy == c.actor == input.actor
    && r.createdAt == p.createdAt == c.createdAt == input.createdAt
    && r.originatingCorrection == p.originatingCorrection == c.id == input.correctionId
    && c.original == o.id && c.reversal == r.id && c.replacement == p.id && c.portfolio == o.portfolio
    && o.id != r.id && o.id != p.id && r.id != p.id && r.sequence < p.sequence
  }

  /** Exactly when a stored fact can be corrected. */
  lemma BuildCorrectionSucceeds(input: CorrectionInput)
    requires Rehydrates(input.original)
    ensures BuildCorrection(input).Success? <==>
            && !input.original.kind.Reversal? && !input.hasDirectCorrection
            && ValidCommand(input.replacement)
            && 0 < input.reversalSequence < input.replacementSequence
            && input.correctionId != 0 && input.reversalId != 0 && input.replacementId != 0 && input.actor != 0
            && input.reversalId != input.original.id && input.replacementId != input.original.id
            && input.reversalId != input.replacementId
            && IsWholeMicrosecond(input.createdAt)
            && input.original.effectiveAt <= input.createdAt && input.replacement.effectiveAt <= input.createdAt
  {
  }
}
