/** The sub-command dispatcher: a table of named operations ending in a
    sentinel entry, searched by exact name; the matching operation is invoked
    with the remaining command-line words. */
module Commands {
  import opened Wrappers
  import opened Strings

  /** The operations a table entry can point to. */
  datatype Handler = CmdGet

  /** One `cmd_operation`; a missing handler is a null function pointer. */
  datatype Operation = Operation(name: string, handler: Option<Handler>)

  /** The `operations` table without its sentinel: the end of the sequence
      plays the `{ nullptr, nullptr }` entry. */
  const Operations: seq<Operation> := [Operation("get", Some(CmdGet))]

  /** The handler the first entry named `cmd` holds; None when no entry has
      that name (the sentinel's null handler) or the entry has no handler. */
  function Dispatch(table: seq<Operation>, cmd: string): (h: Option<Handler>)
    ensures h.Some? ==> exists i :: 0 <= i < |table| && table[i].name == cmd && table[i].handler == h
    ensures (forall i :: 0 <= i < |table| ==> table[i].name != cmd) ==> h.None?
  {
    if |table| == 0 then None
    else if table[0].name == cmd then table[0].handler
    else Dispatch(table[1..], cmd)
  }

  /** With the shipped table exactly `get` is understood. */
  lemma OnlyGetIsKnown(cmd: string)
    ensures Dispatch(Operations, cmd) == (if cmd == "get" then Some(CmdGet) else None)
  {
  }

  /** The linear search of `execute_cmd`: the index of the first entry named
      `cmd`, or the sentinel's index when there is none. */
  method FindOperation(table: seq<Operation>, cmd: string) returns (i: nat)
    ensures i <= |table|
    ensures i < |table| ==> table[i].name == cmd
    ensures forall j :: 0 <= j < i ==> table[j].name != cmd
    ensures (if i < |table| then table[i].handler else None) == Dispatch(table, cmd)
  {
    i := 0;
    while i < |table| && table[i].name != cmd
      invariant i <= |table|
      invariant forall j :: 0 <= j < i ==> table[j].name != cmd
      invariant Dispatch(table[i..], cmd) == Dispatch(table, cmd)
    {
      assert table[i..][1..] == table[i + 1..];
      i := i + 1;
    }
  }

  /** `execute_cmd`'s conversion of `argv` to strings: the first `numArgs`
      words, none when `numArgs` is not positive. */
  method CollectArgs(argv: seq<string>, numArgs: int) returns (args: seq<string>)
    requires numArgs <= |argv|
    ensures |args| == if numArgs < 0 then 0 else numArgs
    ensures forall k :: 0 <= k < |args| ==> args[k] == CString(argv[k])
  {
    args := [];
    var i := 0;
    while i < numArgs
      invariant 0 <= i && (numArgs >= 0 ==> i <= numArgs)
      invariant numArgs < 0 ==> i == 0
      invariant |args| == i
      invariant forall k :: 0 <= k < i ==> args[k] == CString(argv[k])
    {
      args := args + [CString(argv[i])];
      i := i + 1;
    }
  }

  /** A call of a handler with its arguments. */
  datatype Invocation = Invocation(handler: Handler, args: seq<string>)

  /** `execute_cmd`: true exactly when the name selects an entry with a
      handler, which is then invoked once with the converted arguments; the
      name is compared as the C string `strcmp` sees. */
  method ExecuteCmd(table: seq<Operation>, cmd: string, argv: seq<string>, numArgs: int)
    returns (ok: bool, call: Option<Invocation>)
    requires numArgs <= |argv|
    ensures ok <==> Dispatch(table, CString(cmd)).Some?
    ensures ok <==> call.Some?
    ensures ok ==> call.value.handler == Dispatch(table, CString(cmd)).value
    ensures ok ==> |call.value.args| == (if numArgs < 0 then 0 else numArgs)
    ensures ok ==> forall k :: 0 <= k < |call.value.args| ==> call.value.args[k] == CString(argv[k])
  {
    var i := FindOperation(table, CString(cmd));
    if i == |table| || table[i].handler.None? {
      return false, None;
    }
    var args := CollectArgs(argv, numArgs);
    return true, Some(Invocation(table[i].handler.value, args));
  }
}
