/** Values shared by every part of the adapter model. */
module Common {

  datatype Option<+T> = None | Some(value: T)

  /** The two adapter classes of the repository: `Gpt4AllPlus` (src/gpt4allplus.ts)
      and `GPT4All` (src/gpt4all.ts). Where they behave differently, the model
      branches on this value. */
  datatype Variant = Plus | Basic

  /** Why a prompt's promise is rejected. */
  datatype Reason =
    | StreamFailure(error: string)  // the stdout stream reported an 'error' event
    | TrimOfUndefined               // TypeError: `newResponse[0].trim()` on an empty array (plus variant)
    | Thrown(value: string)         // a plain value passed to `reject` (the basic variant rejects with "")

  /** How a prompt's promise settles. */
  datatype Answer = Resolved(text: string) | Rejected(reason: Reason)
}
