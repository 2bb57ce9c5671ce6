/**
 * The registration form component: the state it holds and the handlers
 * that replace it. Each handler is proved against the pure transition in
 * module Participants that specifies it.
 */
module App {
  import opened Wrappers
  import opened Participants
  import opened Submission

  class RegistrationForm {
    var participantes: seq<Participant>
    var pagamento: PaymentMethod
    /** The error message on display, if any. */
    var erro: Option<string>

    /** The list always holds the responsible party at index 0. */
    ghost predicate Valid()
      reads this
    {
      |participantes| >= 1
    }

    /** One default adult, PIX selected, no error shown. */
    constructor ()
      ensures Valid()
      ensures participantes == Initial && pagamento == Pix && erro == None
    {
      participantes := [NewParticipant];
      pagamento := Pix;
      erro := None;
    }

    method AddParticipante()
      requires Valid()
      modifies this`participantes
      ensures Valid()
      ensures participantes == Added(old(participantes))
      ensures |participantes| == |old(participantes)| + 1
      ensures participantes[..|old(participantes)|] == old(participantes)
      ensures participantes[|old(participantes)|] == NewParticipant
    {
      participantes := participantes + [NewParticipant];
    }

    method RemoveParticipante(index: int)
      requires Valid()
      modifies this`participantes
      ensures Valid()
      ensures participantes == Removed(old(participantes), index)
      ensures |old(participantes)| <= 1 ==> participantes == old(participantes)
    {
      if |participantes| <= 1 {
        return;
      }
      RemovedFacts(participantes, index);
      participantes := FilterPos(participantes, index);
    }

    /** Copies the list, writes one field of entry `index` (re-deriving the
        price when the field is the ticket type) and stores the copy. */
    method UpdateParticipante(index: int, e: Edit)
      requires Valid()
      requires 0 <= index < |participantes|
      modifies this`participantes
      ensures Valid()
      ensures participantes == Updated(old(participantes), index, e)
      ensures |participantes| == |old(participantes)|
      ensures forall j :: 0 <= j < |participantes| && j != index ==> participantes[j] == old(participantes)[j]
    {
      var p := participantes[index];
      match e {
        case SetTipo(t) =>
          p := p.(tipo := t, valor := PriceOf(t));
        case SetNome(v) =>
          p := p.(nome := v);
        case SetTelefone(v) =>
          p := p.(telefone := v);
        case SetValor(v) =>
          p := p.(valor := v);
      }
      participantes := participantes[index := p];
    }

    method SetPagamento(m: PaymentMethod)
      modifies this`pagamento
      ensures pagamento == m
    {
      pagamento := m;
    }

    /** Clears the shown error, validates, and either shows the validation
        message and sends nothing, or returns the data to send. */
    method HandleSubmit() returns (sent: Option<Payload>)
      requires Valid()
      modifies this`erro
      ensures Valid()
      ensures erro == Validate(participantes)
      ensures sent == None <==> Validate(participantes) != None
      ensures sent != None ==> sent == Some(Payload(pagamento, Total(participantes), participantes))
    {
      erro := None;
      var errorMsg := Validate(participantes);
      if errorMsg != None {
        erro := errorMsg;
        return None;
      }
      sent := Some(Payload(pagamento, Total(participantes), participantes));
    }
  }
}
