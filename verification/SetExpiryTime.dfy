/** GpgSetExpiryTimeEditInteractor. */
module SetExpiryTime {
  import opened Errors
  import opened EditTypes

  const COMMAND: nat := 1
  const DATE: nat := 2
  const QUIT: nat := 3
  const SAVE: nat := 4

  function Action(date: string, state: nat): Act {
    if state == COMMAND then Reply("expire")
    else if state == DATE then Reply(date)
    else if state == QUIT then Reply("quit")
    else if state == SAVE then Reply("Y")
    else if state == START_STATE || state == ERROR_STATE then NoReply
    else ActionError(General)
  }

  function NextState(state: nat, lastError: Error, ask: Ask): Next {
    if NeedsNoResponse(ask) then Next(state, NoError)
    else if state == START_STATE then
      if ask.Line(KeyeditPrompt) then Next(COMMAND, NoError)
      else Next(ERROR_STATE, General)
    else if state == COMMAND then
      if ask.Line(KeygenValid) then Next(DATE, NoError)
      else Next(ERROR_STATE, General)
    else if state == DATE then
      if ask.Line(KeyeditPrompt) then Next(QUIT, NoError)
      else if ask.status.GetLine? && !ask.Line(KeygenValid) then Next(ERROR_STATE, InvTime)
      else Next(ERROR_STATE, General)
    else if state == QUIT then
      if ask.Bool(KeyeditSaveOkay) then Next(SAVE, NoError)
      else Next(ERROR_STATE, General)
    else if state == ERROR_STATE then
      if ask.Line(KeyeditPrompt) then Next(QUIT, NoError)
      else Next(ERROR_STATE, lastError)
    else Next(ERROR_STATE, General)
  }
}
