/** Vocabulary shared by the edit interactors: states, statuses, prompts and what the virtual
    functions `nextState` and `action` return. */
module EditTypes {
  import opened Errors

  const START_STATE: nat := 0
  const ERROR_STATE: nat := 0xFFFF_FFFF

  datatype Status =
    | GetLine
    | GetBool
    | AlreadySignedStatus
    | ErrorStatus
    | KeyCreated
    | NeedPassphraseSym
    | ScOpFailure
    | MissingPassphrase
    | SigExpiredStatus
    | OtherStatus

  /** The argument strings the interactors compare against. */
  datatype Prompt =
    | KeyeditPrompt
    | KeyeditSaveOkay
    | KeygenName
    | KeygenEmail
    | KeygenComment
    | KeygenValid
    | OwnertrustValue
    | OwnertrustSetUltimate
    | SignAllOkay
    | SignUidOkay
    | SignUidExpire
    | SignUidClass
    | LocalPromoteOkay
    | TrustValue
    | TrustDepth
    | TrustRegexp
    | OtherPrompt

  /** Stands for the `strcmp` tests: which known argument string, if any, `args` is. */
  function Classify(args: string): Prompt {
    if args == "keyedit.prompt" then KeyeditPrompt
    else if args == "keyedit.save.okay" then KeyeditSaveOkay
    else if args == "keygen.name" then KeygenName
    else if args == "keygen.email" then KeygenEmail
    else if args == "keygen.comment" then KeygenComment
    else if args == "keygen.valid" then KeygenValid
    else if args == "edit_ownertrust.value" then OwnertrustValue
    else if args == "edit_ownertrust.set_ultimate.okay" then OwnertrustSetUltimate
    else if args == "keyedit.sign_all.okay" then SignAllOkay
    else if args == "sign_uid.okay" then SignUidOkay
    else if args == "sign_uid.expire" then SignUidExpire
    else if args == "sign_uid.class" then SignUidClass
    else if args == "sign_uid.local_promote_okay" then LocalPromoteOkay
    else if args == "trustsign_prompt.trust_value" then TrustValue
    else if args == "trustsign_prompt.trust_depth" then TrustDepth
    else if args == "trustsign_prompt.trust_regexp" then TrustRegexp
    else OtherPrompt
  }

  /** One status callback: the status code and its argument string. */
  datatype Ask = Ask(status: Status, prompt: Prompt) {
    predicate Line(p: Prompt) {
      status.GetLine? && prompt == p
    }

    predicate Bool(p: Prompt) {
      status.GetBool? && prompt == p
    }
  }

  /** EditInteractor::needsNoResponse. */
  predicate NeedsNoResponse(ask: Ask) {
    match ask.status
    case AlreadySignedStatus | ErrorStatus | GetBool | GetLine | KeyCreated
       | NeedPassphraseSym | ScOpFailure => false
    case _ => true
  }

  /** The driver's status_to_error. */
  function StatusToError(ask: Ask): Error {
    match ask.status
    case MissingPassphrase => NoPassphrase
    case AlreadySignedStatus => AlreadySigned
    case SigExpiredStatus => SigExpired
    case _ => NoError
  }

  /** Result of `nextState`: the state returned and the error left in its out-parameter. */
  datatype Next = Next(state: nat, err: Error)

  /** Result of `action`: a reply line, the null pointer without or with an error, or a failed assertion. */
  datatype Act =
    | Reply(line: string)
    | NoReply
    | ActionError(err: Error)
    | AssertionFailure
}
