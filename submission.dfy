/**
 * The submit-time check of the registration form and the data it hands
 * on when the check passes.
 */
module Submission {
  import opened Wrappers
  import opened JsText
  import opened Participants

  /** The payment buttons the form offers; it starts on PIX. */
  datatype PaymentMethod = Pix | Dinheiro | Cartao

  /** What a successful submit sends: payment method, total and the list. */
  datatype Payload = Payload(pagamento: PaymentMethod, total: int, participantes: seq<Participant>)

  const NameRequired := "O nome do responsável é obrigatório."
  const PhoneRequired := "O telefone do responsável é obrigatório."

  /** Checks only the responsible party, entry 0: a blank name is reported
      first, then a blank phone; otherwise there is no error. */
  function Validate(ps: seq<Participant>): (r: Option<string>)
    requires |ps| >= 1
    ensures r == Some(NameRequired) <==> IsBlank(ps[0].nome)
    ensures r == Some(PhoneRequired) <==> !IsBlank(ps[0].nome) && IsBlank(ps[0].telefone)
    ensures r == None <==> !IsBlank(ps[0].nome) && !IsBlank(ps[0].telefone)
  {
    if Trim(ps[0].nome) == "" then Some(NameRequired)
    else if Trim(ps[0].telefone) == "" then Some(PhoneRequired)
    else None
  }

  /** Entries after the responsible party never affect the check. */
  lemma ValidateReadsOnlyHead(ps: seq<Participant>, qs: seq<Participant>)
    requires |ps| >= 1 && |qs| >= 1 && ps[0] == qs[0]
    ensures Validate(ps) == Validate(qs)
  {
  }
}
