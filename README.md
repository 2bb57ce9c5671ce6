# Festa da Família registration form — participant-list model

This project models the state behind the event-registration form in
`App.tsx`. The form keeps an ordered list of participants. Each participant
has a name (`nome`), a phone (`telefone`), a ticket type (`tipo`: adult
`Adulto` or child `Crianca`) and a price (`valor`). The form also keeps the
selected payment method and the error message on display. Its handlers
append a default adult, remove an entry (but never the last one) and write
one field of one entry. Writing the ticket type re-derives the price
(100 for an adult, 50 otherwise). The total is the sum of the prices. On
submit, the form checks only the responsible party (entry 0). It shows the
first blank field's message and sends nothing, or it hands on the payment
method, the total and the list.

Layout:

- `participants.dfy` (module `Participants`): the records and the pure
  transitions behind add, remove and update. It also holds the total and the
  lemmas about what the transitions keep. Sequences of handler calls are
  modelled as `Run`, and lemmas cover them.
- `submission.dfy` (module `Submission`): `Validate`, its two messages and
  the data sent on a successful submit.
- `jstext.dfy` (module `JsText`): JavaScript's `String.prototype.trim`.
  It strips the ECMAScript WhiteSpace and LineTerminator code points.
- `app.dfy` (module `App`): class `RegistrationForm`. Its fields are
  `participantes`, `pagamento` and `erro`, and its methods are the
  component's handlers. Each handler is proved against the pure transition
  that specifies it. The invariant `Valid()` says the list is never empty.
- `wrappers.dfy`: the `Option` type, standing for `string | null`.

Prices and the total are whole reais (`int`).

What `App.tsx` does not do, and so the model does not either:

- `App.tsx` has no phone mask, no tax-id (CPF) check and no PIX payload or
  CRC-16 encoder. `telefone` is stored verbatim.
- Only two ticket types exist, and there is no free ticket.
- The submit check looks only at entry 0: a name that trims to empty, then a
  phone that trims to empty. It does not check every participant's name, and
  it does not match the phone against a pattern.

The form's starting record `{"", "", adulto, 100}` (App.tsx:23 and 38) is
the constant `Participants.NewParticipant`, and the starting list is
`Participants.Initial`. The data a successful submit sends (App.tsx:82-87,
without `clientRequestId`) is the datatype `Submission.Payload`.

## Model

| member | source | states |
|---|---|---|
| `JsText.SkipLeading` | App.tsx:65-66 | Returns the first position at or after `i` whose character is not trimmable, or the length when there is none. Every character skipped is trimmable. |
| `JsText.SkipTrailing` | App.tsx:65-66 | Walking back from `j`, but not past `lo`, returns the end of the last character that is not trimmable, or `lo` when there is none. Every character skipped is trimmable. |
| `JsText.Trim` | App.tsx:65-66 | `s.trim()` is a slice of `s`, and every character before or after that slice is JavaScript white space or a line terminator. The result is empty exactly when every character of `s` is one of those. Otherwise it neither starts nor ends with one. |
| `Participants.PriceOf` | App.tsx:54 | Computes the price a ticket type fixes: 100 for `adulto`, 50 otherwise. |
| `Participants.Total` | App.tsx:31-33 | Computes the `reduce` sum of `valor` over the list, left to right from 0. |
| `Participants.TotalConcat` | App.tsx:31-33 | The `reduce` sum over two concatenated lists is the sum of their totals. |
| `Participants.TotalByType` | App.tsx:31-33 | When every price comes from its ticket type, the total is 100 × adults + 50 × children. |
| `Participants.Added` | App.tsx:36-39 | Computes the spread-append `[...prev, {nome: "", telefone: "", tipo: "adulto", valor: 100}]`. |
| `Participants.AddedFacts` | App.tsx:35-40 | Add grows the list by exactly one. The new last entry is `{"", "", adulto, 100}`. Every earlier entry is unchanged and in place. The total rises by 100. Prices stay tied to types. |
| `Participants.FilterPos` | App.tsx:44 | Computes `filter((_, i) => i !== index)`: it keeps each entry whose position differs from `index`, in order. |
| `Participants.FilterPosSlices` | App.tsx:44 | `filter((_, i) => i !== index)` removes exactly entry `index` and keeps the rest in order. For an out-of-range index, including a negative one, it returns the list unchanged. |
| `Participants.DeleteAtTotal` | App.tsx:44 | Deleting an in-range entry lowers the total by exactly that entry's price. |
| `Participants.DeleteAtPrices` | App.tsx:44 | Deleting an entry keeps every remaining price tied to its ticket type. |
| `Participants.Removed` | App.tsx:42-45 | Computes the remove handler's new list: unchanged when the list has at most one entry, otherwise the position filter. |
| `Participants.RemovedFacts` | App.tsx:42-45 | Remove never empties a non-empty list. It is a no-op on a one-entry list or an out-of-range index. Otherwise it deletes exactly entry `index`, shortens the list by one and lowers the total by that price. |
| `Participants.Apply` | App.tsx:50-57 | Computes the copied record `p` after the write. Writing `tipo` also sets `valor` from the price table, and any other field is written verbatim. |
| `Participants.ApplyTouchesOneField` | App.tsx:50-57 | Writing a field changes only that field. Writing `tipo` sets `valor` to 100 for `adulto` and 50 otherwise, overriding any earlier price. |
| `Participants.Updated` | App.tsx:48-60 | Computes the copied list `next` with `next[index] = p`, where `p` is the written record. |
| `Participants.UpdatedFacts` | App.tsx:47-61 | Update keeps the length and every other entry, and entry `index` gets the written field. The total moves by that entry's price change. Prices stay tied to types unless the price itself is written. |
| `Participants.RunNeverEmpty` | App.tsx:35-61 | No sequence of add, remove and update calls empties a non-empty list. |
| `Participants.RunKeepsPricesFromType` | App.tsx:35-61 | Calls the rendered form can make never write `valor` directly (App.tsx lines 200, 213 and 228 write only `nome`, `telefone` and `tipo`). Such calls keep every price equal to its ticket type's price. |
| `Participants.ReachableTotal` | App.tsx:22-61 | From the initial one-adult list, every reachable list is non-empty. Its total is 100 per adult plus 50 per child. |
| `Participants.AdultChildScenario` | App.tsx:31-61 | One adult gives a total of 100. Adding an entry and making it a child gives 150. Removing the child gives 100 and the original list again. |
| `Submission.Validate` | App.tsx:64-68 | The name message is returned exactly when entry 0's name trims to empty. The phone message is returned exactly when the name is non-blank and the phone trims to empty. Otherwise the result is null. |
| `Submission.ValidateReadsOnlyHead` | App.tsx:64-68 | Two lists with the same entry 0 validate alike, so entries past index 0 are never inspected. |
| `App.RegistrationForm.constructor` | App.tsx:22-29 | The form starts with one `{"", "", adulto, 100}` entry, payment method `pix` and no error. |
| `App.RegistrationForm.AddParticipante` | App.tsx:35-40 | The new list is the old one with a default adult appended. The invariant is kept. |
| `App.RegistrationForm.RemoveParticipante` | App.tsx:42-45 | The new list is `Removed(old list, index)`, and nothing changes when at most one entry is left. The invariant is kept. |
| `App.RegistrationForm.UpdateParticipante` | App.tsx:47-61 | The new list is `Updated(old list, index, edit)`. It has the same length, and every other entry is unchanged. |
| `App.RegistrationForm.SetPagamento` | App.tsx:256 | The selected payment method becomes the button's method. |
| `App.RegistrationForm.HandleSubmit` | App.tsx:70-87 | The shown error becomes `Validate`'s message. Nothing is sent exactly when that message is non-null. Otherwise the method returns the payment method, the total and the list to send. |

## Left out

- The `fetch` POST to the Apps Script endpoint, its `URLSearchParams`/JSON encoding and the `no-cors` success assumption (App.tsx:19, 89-116). This is network I/O. `HandleSubmit` returns the data it would send.
- `clientRequestId` built from `Date.now()` (App.tsx:86). It depends on the clock, so it is not part of `Payload`.
- The `enviando`/`sucesso` flags, the async `try/catch/finally` and the connection-error message set on a network failure (App.tsx:27-28, 80, 110-116). These belong to the request, not to the form's logic.
- JSX rendering, including the `index > 0` guard on the trash button and the browser's own checks from the `required` attributes (App.tsx:182, 203, 216). The model's remove guard is the length check at App.tsx:43.
- `toFixed(2)` money formatting and the `Number(p.valor) || 0` fallback for a non-numeric price (App.tsx:32, 240, 273). Prices are whole numbers here.
- `App.RegistrationForm.UpdateParticipante`: requires an in-range index. The form passes only indices it rendered from the list. For an out-of-range index, JavaScript would write a partial record past the end (leaving holes) or set a non-index property, and that is not modelled.
- `Participants.Edit`: the update's value is typed per field. A `tipo` outside `adulto`/`crianca` cannot be written, although the unchecked cast at App.tsx:53 would accept one and price it 50.
- The remove guard reads the rendered list, and the filter runs on React's queued previous state (App.tsx:43-44). The model applies handlers one at a time, so the two are the same list.
- components/PaymentModal.tsx (presentation with callbacks only) and vite.config.ts (build configuration) are not part of this model.
