/** GpgME::Error, reduced to what the modelled code can tell apart. */
module Errors {

  datatype Error =
    | NoError
    | General
    | Canceled
    | NoPassphrase
    | AlreadySigned
    | SigExpired
    | InvName
    | InvUserId
    | InvTime
    | UnusablePubkey
    | OutOfMemory
    | SystemError(errno: nat)
  {
    /** The safe-bool operator: a cancelled operation does not test true. */
    predicate Holds() {
      this != NoError && this != Canceled
    }
  }

  datatype Option<+T> = None | Some(value: T)
}
