/** Machine-type validation of `ghcs create`: a machine named on the command
    line must be one of the repository's SKUs; with none named and no SKUs
    available, creation is refused. */
module MachineChoice {
  import opened Wrappers
  import Strings

  datatype Sku = Sku(name: string, displayName: string)

  function Names(skus: seq<Sku>): (ns: seq<string>)
    ensures |ns| == |skus|
    ensures forall i :: 0 <= i < |skus| ==> ns[i] == skus[i].name
  {
    if |skus| == 0 then [] else [skus[0].name] + Names(skus[1..])
  }

  predicate IsSkuName(machine: string, skus: seq<Sku>)
  {
    exists i :: 0 <= i < |skus| && skus[i].name == machine
  }

  /** What getMachineName settles without prompting. */
  datatype Choice =
    | Chosen(machine: string)        // returned without error
    | Prompt(options: seq<Sku>)      // the interactive selection, not modelled
    | Failure(message: string)

  /** Go's `%v` of a string slice: the elements space-separated in brackets. */
  function SliceText(ns: seq<string>): string
  {
    "[" + Strings.Join(ns, " ") + "]"
  }

  function UnknownMachine(machine: string, skus: seq<Sku>): string
  {
    "there is no such machine for the repository: " + machine + "\nAvailable machines: " + SliceText(Names(skus))
  }

  /** getMachineName, given what GetCodespacesSkus answered. */
  function MachineName(machine: string, skus: Result<seq<Sku>, string>): (c: Choice)
    ensures skus.Err? ==> c == Failure("error getting codespace skus: " + skus.error)
    ensures skus.Ok? && machine != "" ==>
      (c == Chosen(machine) <==> IsSkuName(machine, skus.value))
    ensures skus.Ok? && machine != "" && !IsSkuName(machine, skus.value) ==>
      c == Failure(UnknownMachine(machine, skus.value))
    ensures skus.Ok? && machine == "" ==>
      (c == Chosen("") <==> |skus.value| == 0) && (c.Prompt? <==> |skus.value| > 0)
    ensures c.Chosen? && c.machine != "" ==> c.machine == machine
  {
    match skus
    case Err(e) => Failure("error getting codespace skus: " + e)
    case Ok(list) =>
      if machine != "" then
        if IsSkuName(machine, list) then Chosen(machine)
        else Failure(UnknownMachine(machine, list))
      else if |list| == 0 then Chosen("")
      else Prompt(list)
  }

  /** What `create` does with that choice before creating the codespace. */
  datatype Decision = Proceed(machine: string) | AskUser(options: seq<Sku>) | Abort(message: string)

  /** Creation goes ahead with a supplied machine that is a SKU name, asks
      when no machine was supplied and there are SKUs, and stops otherwise. */
  function CreateDecision(machine: string, skus: Result<seq<Sku>, string>): (d: Decision)
    ensures d.Proceed? <==> skus.Ok? && machine != "" && IsSkuName(machine, skus.value)
    ensures d.Proceed? ==> d.machine == machine
    ensures d.AskUser? <==> skus.Ok? && machine == "" && |skus.value| > 0
    ensures d.AskUser? ==> d.options == skus.value
    ensures skus.Err? ==> d == Abort("error getting machine type: " + ("error getting codespace skus: " + skus.error))
  {
    var c := MachineName(machine, skus);
    assert skus.Ok? && machine != "" && IsSkuName(machine, skus.value) ==> c == Chosen(machine);
    assert skus.Ok? && machine == "" ==> (c.Prompt? <==> |skus.value| > 0);
    match c
    case Failure(m) => Abort("error getting machine type: " + m)
    case Chosen(name) =>
      if name == "" then Abort("There are no available machine types for this repository")
      else Proceed(name)
    case Prompt(options) => AskUser(options)
  }

  /** Creation only proceeds without a prompt with a machine that is one of
      the repository's SKU names, and the empty answer is turned into an error. */
  lemma CreateProceedsOnlyWithSku(machine: string, skus: Result<seq<Sku>, string>)
    ensures CreateDecision(machine, skus).Proceed? ==>
      skus.Ok? && IsSkuName(CreateDecision(machine, skus).machine, skus.value)
    ensures skus == Ok([]) ==> CreateDecision(machine, skus).Abort?
    ensures skus == Ok([]) && machine == "" ==>
      CreateDecision(machine, skus) == Abort("There are no available machine types for this repository")
  {
  }
}
