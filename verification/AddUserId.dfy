/** GpgAddUserIDEditInteractor. */
module AddUserId {
  import opened Errors
  import opened EditTypes

  const COMMAND: nat := 1
  const NAME: nat := 2
  const EMAIL: nat := 3
  const COMMENT: nat := 4
  const QUIT: nat := 5
  const SAVE: nat := 6

  datatype Fields = Fields(name: string, email: string, comment: string)

  function Action(f: Fields, state: nat): Act {
    if state == COMMAND then Reply("adduid")
    else if state == NAME then Reply(f.name)
    else if state == EMAIL then Reply(f.email)
    else if state == COMMENT then Reply(f.comment)
    else if state == QUIT then Reply("quit")
    else if state == SAVE then Reply("Y")
    else if state == START_STATE || state == ERROR_STATE then NoReply
    else ActionError(General)
  }

  function NextState(state: nat, lastError: Error, ask: Ask): Next {
    if NeedsNoResponse(ask) then Next(state, NoError)
    else if state == START_STATE then
      if ask.Line(KeyeditPrompt) then Next(COMMAND, NoError)
      else Next(ERROR_STATE, General)
    else if state == COMMAND then
      if ask.Line(KeygenName) then Next(NAME, NoError)
      else Next(ERROR_STATE, General)
    else if state == NAME then
      if ask.Line(KeygenEmail) then Next(EMAIL, NoError)
      else if ask.Line(KeygenName) then Next(ERROR_STATE, InvName)
      else Next(ERROR_STATE, General)
    else if state == EMAIL then
      if ask.Line(KeygenComment) then Next(COMMENT, NoError)
      else if ask.Line(KeygenEmail) then Next(ERROR_STATE, InvUserId)
      else Next(ERROR_STATE, General)
    else if state == COMMENT then
      if ask.Line(KeyeditPrompt) then Next(QUIT, NoError)
      else if ask.Line(KeygenComment) then Next(ERROR_STATE, InvUserId)
      else Next(ERROR_STATE, General)
    else if state == QUIT then
      if ask.Bool(KeyeditSaveOkay) then Next(SAVE, NoError)
      else Next(ERROR_STATE, General)
    else if state == ERROR_STATE then
      if ask.Line(KeyeditPrompt) then Next(QUIT, NoError)
      else Next(ERROR_STATE, lastError)
    else Next(ERROR_STATE, General)
  }

  /** GpgAddUserIDEditInteractor with its three setters. */
  class Interactor {
    var name: string
    var email: string
    var comment: string

    constructor ()
      ensures Set() == Fields("", "", "")
    {
      name, email, comment := "", "", "";
    }

    function Set(): Fields
      reads this
    {
      Fields(name, email, comment)
    }

    method SetNameUtf8(s: string)
      modifies this`name
      ensures Set() == old(Set()).(name := s)
    {
      name := s;
    }

    method SetEmailUtf8(s: string)
      modifies this`email
      ensures Set() == old(Set()).(email := s)
    {
      email := s;
    }

    method SetCommentUtf8(s: string)
      modifies this`comment
      ensures Set() == old(Set()).(comment := s)
    {
      comment := s;
    }
  }
}
