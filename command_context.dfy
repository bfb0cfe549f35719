/** The context object of one debugger command. */
module CommandContexts {
  import opened Wrappers

  const ReturnToNone := 0
  const ReturnToNext := 1

  class CommandContext {
    const command: string
    const arguments: seq<string>
    var returnTo: int

    constructor (command: string, arguments: seq<string>)
      ensures this.command == command && this.arguments == arguments
      ensures returnTo == ReturnToNone
    {
      this.command := command;
      this.arguments := arguments;
      returnTo := ReturnToNone;
    }

    function GetCommand(): (r: string)
      ensures r == command
    {
      command
    }

    /** `getArgument`: the argument at `index` when there is one, null otherwise. */
    function GetArgument(index: int): (r: Option<string>)
      ensures r.Some? <==> 0 <= index < |arguments|
      ensures r.Some? ==> r.value == arguments[index]
    {
      if 0 <= index < |arguments| then Some(arguments[index]) else None
    }

    function GetArguments(): (r: seq<string>)
      ensures r == arguments
    {
      arguments
    }

    function GetReturnTo(): (r: int)
      reads this
      ensures r == returnTo
    {
      returnTo
    }

    method SetReturnTo(returnTo: int)
      modifies this
      ensures GetReturnTo() == returnTo
    {
      this.returnTo := returnTo;
    }
  }
}
