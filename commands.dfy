/**
 * What `Device.sendCommand` writes to the serial port, and the list of
 * commands a restore sends for saved settings.
 */
module Commands {
  import opened Base
  import opened Json
  import opened Records

  /** The argument of `sendCommand`: a raw text line or a command object. */
  datatype Outgoing =
    | Text(text: string)
    | Object(members: seq<Member>)

  /** Why `sendCommand` throws: the object has no (truthy) `cmd`, or there is no port to write to. */
  datatype CommandError = MissingCmd | NoPort

  /** The typed command objects, as the objects `sendCommand` receives. */
  function CommandObject(c: SerialCommand): Outgoing
  {
    Object(CommandMembers(c))
  }

  /** `s` is one line: it ends with its only line feed. */
  predicate OneLine(s: string)
  {
    s != [] && s[|s| - 1] == '\n' && '\n' !in s[..|s| - 1]
  }

  lemma PrintableHasNoLineFeed(s: string)
    requires Printable(s)
    ensures '\n' !in s
  {
  }

  /**
   * The text `sendCommand` writes: a string followed by a line feed, or the
   * JSON text of an object followed by a line feed; an object whose `cmd`
   * is missing or falsy is refused. What goes out ends with a line feed and
   * starts with what was asked for, and an accepted object is always exactly
   * one line, whatever its values hold.
   */
  function Encode(c: Outgoing): (r: Result<string, CommandError>)
    ensures c.Text? ==> r.Ok?
    ensures c.Object? ==> (r.Ok? <==> TruthyValue(Get(c.members, "cmd")))
    ensures r.Err? ==> r.error == MissingCmd
    ensures r.Ok? ==> |r.value| >= 1 && r.value[|r.value| - 1] == '\n'
    ensures c.Text? ==> r.value[..|r.value| - 1] == c.text
    ensures c.Object? && r.Ok? ==> r.value[..|r.value| - 1] == Stringify(JObject(c.members)) && OneLine(r.value)
    ensures c.Text? && '\n' !in c.text ==> OneLine(r.value)
  {
    match c
    case Text(t) =>
      assert (t + "\n")[..|t|] == t;
      Ok(t + "\n")
    case Object(members) =>
      if !TruthyValue(Get(members, "cmd")) then Err(MissingCmd)
      else
        var body := Stringify(JObject(members));
        PrintableStringify(JObject(members));
        PrintableHasNoLineFeed(body);
        assert (body + "\n")[..|body|] == body;
        Ok(body + "\n")
  }

  /** An accepted command object always goes out as exactly one line. */
  lemma ObjectIsOneLine(members: seq<Member>)
    requires TruthyValue(Get(members, "cmd"))
    ensures Encode(Object(members)).Ok? && OneLine(Encode(Object(members)).value)
  {
  }

  /** Every typed command has its `cmd` set, so it is always written, as one line. */
  lemma TypedCommandIsOneLine(c: SerialCommand)
    ensures Encode(CommandObject(c)).Ok? && OneLine(Encode(CommandObject(c)).value)
  {
    ObjectIsOneLine(CommandMembers(c));
  }

  // ---------------------------------------------------------------------------
  // Restore

  /** A saved PiShock value that `for ... of` cannot walk through. */
  datatype RestoreError = NotIterable(data: Json)

  /** The `addnetwork` command object for one saved entry. */
  function AddNetworkObject(entry: Json): Outgoing
  {
    Object([Member("cmd", JString(AddNetwork.Text())), Member("value", entry)])
  }

  /** The values `for ... of` visits in a saved value: array items, or the characters of a string. */
  function Iterated(data: Json): Option<seq<Json>>
  {
    match data
    case JArray(items) => Some(items)
    case JString(s) => Some(seq(|s|, k requires 0 <= k < |s| => JString([s[k]])))
    case _ => None
  }

  /**
   * The commands a restore sends for the saved `data`: for OpenShock the one
   * `jsonconfig` line carrying the whole configuration, for PiShock one
   * `addnetwork` command per saved entry, in saved order.
   */
  function RestoreCommands(target: BoardFirmware, data: Json): (r: Result<seq<Outgoing>, RestoreError>)
    ensures target == OpenShock ==> r.Ok? && |r.value| == 1
    ensures target == PiShock ==> (r.Ok? <==> Iterated(data).Some?)
    ensures target == PiShock && r.Ok? ==>
      |r.value| == |Iterated(data).value|
      && forall k :: 0 <= k < |r.value| ==> r.value[k] == AddNetworkObject(Iterated(data).value[k])
    ensures r.Err? ==> r.error == NotIterable(data)
    ensures r.Ok? ==> forall k :: 0 <= k < |r.value| ==> Encode(r.value[k]).Ok? && OneLine(Encode(r.value[k]).value)
  {
    match target
    case OpenShock =>
      PrintableStringify(data);
      PrintableConcat("jsonconfig ", Stringify(data));
      PrintableHasNoLineFeed("jsonconfig " + Stringify(data));
      Ok([Text("jsonconfig " + Stringify(data))])
    case PiShock =>
      match Iterated(data)
      case None => Err(NotIterable(data))
      case Some(entries) => Ok(seq(|entries|, k requires 0 <= k < |entries| => AddNetworkObject(entries[k])))
  }

  /** Restoring saved networks sends exactly the typed `addnetwork` command of each, in saved order. */
  lemma RestoreNetworksInOrder(ns: seq<Network>)
    ensures RestoreCommands(PiShock, NetworksJson(ns)).Ok?
    ensures var cs := RestoreCommands(PiShock, NetworksJson(ns)).value;
      |cs| == |ns| && forall k :: 0 <= k < |ns| ==> cs[k] == CommandObject(AddNetworkCommand(ns[k]))
  {
  }

  /** The lines a restore writes, in order. */
  function Lines(cs: seq<Outgoing>): seq<string>
    requires forall k :: 0 <= k < |cs| ==> Encode(cs[k]).Ok?
  {
    seq(|cs|, k requires 0 <= k < |cs| => Encode(cs[k]).value)
  }

  /** An OpenShock restore writes a single line: `jsonconfig `, the configuration's JSON text, a line feed. */
  lemma RestoreOpenShockIsOneLine(data: Json)
    ensures var cs := RestoreCommands(OpenShock, data).value;
      |cs| == 1 && Encode(cs[0]) == Ok("jsonconfig " + Stringify(data) + "\n")
      && OneLine(Encode(cs[0]).value)
  {
    var body := "jsonconfig " + Stringify(data);
    assert RestoreCommands(OpenShock, data).value == [Text(body)];
  }
}
