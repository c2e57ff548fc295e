/** GpgSetOwnerTrustEditInteractor. */
module SetOwnerTrust {
  import opened Errors
  import opened EditTypes

  const COMMAND: nat := 1
  const VALUE: nat := 2
  const REALLY_ULTIMATE: nat := 3
  const QUIT: nat := 4
  const SAVE: nat := 5

  datatype OwnerTrust = Unknown | Undefined | Never | Marginal | Full | Ultimate

  /** The entry of `truststrings` for the enumerator. */
  function TrustString(trust: OwnerTrust): string {
    match trust
    case Unknown | Undefined => "1"
    case Never => "2"
    case Marginal => "3"
    case Full => "4"
    case Ultimate => "5"
  }

  /** The numbers of the enumerators. */
  function Ordinal(trust: OwnerTrust): nat {
    match trust
    case Unknown => 0
    case Undefined => 1
    case Never => 2
    case Marginal => 3
    case Full => 4
    case Ultimate => 5
  }

  /** The digit sent is the enumerator's number, except that Unknown is sent as 1. */
  lemma TrustStringIsOrdinal(trust: OwnerTrust)
    ensures |TrustString(trust)| == 1
    ensures TrustString(trust)[0] as int - '0' as int == if trust == Unknown then 1 else Ordinal(trust)
  {
  }

  function Action(trust: OwnerTrust, state: nat): Act {
    if state == COMMAND then Reply("trust")
    else if state == VALUE then Reply(TrustString(trust))
    else if state == REALLY_ULTIMATE then Reply("Y")
    else if state == QUIT then Reply("quit")
    else if state == SAVE then Reply("Y")
    else if state == START_STATE || state == ERROR_STATE then NoReply
    else ActionError(General)
  }

  function NextState(state: nat, lastError: Error, ask: Ask): Next {
    if NeedsNoResponse(ask) then Next(state, NoError)
    else if state == START_STATE then
      if ask.Line(KeyeditPrompt) then Next(COMMAND, NoError)
      else Next(ERROR_STATE, General)
    else if state == COMMAND then
      if ask.Line(OwnertrustValue) then Next(VALUE, NoError)
      else Next(ERROR_STATE, General)
    else if state == VALUE then
      if ask.Line(KeyeditPrompt) then Next(QUIT, NoError)
      else if ask.Bool(OwnertrustSetUltimate) then Next(REALLY_ULTIMATE, NoError)
      else Next(ERROR_STATE, General)
    else if state == REALLY_ULTIMATE then
      if ask.Line(KeyeditPrompt) then Next(QUIT, NoError)
      else Next(ERROR_STATE, General)
    else if state == QUIT then
      if ask.Bool(KeyeditSaveOkay) then Next(SAVE, NoError)
      else Next(ERROR_STATE, General)
    else if state == ERROR_STATE then
      if ask.Line(KeyeditPrompt) then Next(QUIT, NoError)
      else Next(ERROR_STATE, lastError)
    else Next(ERROR_STATE, General)
  }
}
