/**
 * The records exchanged with the two firmware families, and the JSON objects
 * the tool builds from them. Member order follows the declarations, which is
 * the insertion order `JSON.stringify` keeps for these non-numeric keys. The
 * OpenShock `JsonConfig` frame is kept as whatever JSON value was parsed, so
 * it has no record of its own here.
 */
module Records {
  import opened Json

  /** The two firmware families (`BoardFirmware`). */
  datatype BoardFirmware = PiShock | OpenShock
  {
    /** The enum's string value, which also names the saved-settings file. */
    function Name(): string
    {
      match this
      case PiShock => "PiShock"
      case OpenShock => "OpenShock"
    }
  }

  /** Commands of the PiShock serial protocol (`SerialCommandEnum`). */
  datatype SerialCommandEnum = Info | Operate | AddNetwork | Restart
  {
    function Text(): string
    {
      match this
      case Info => "info"
      case Operate => "operate"
      case AddNetwork => "addnetwork"
      case Restart => "restart"
    }
  }

  datatype SerialOperateEnum = Shock | Vibrate | Beep | End
  {
    function Text(): string
    {
      match this
      case Shock => "shock"
      case Vibrate => "vibrate"
      case Beep => "beep"
      case End => "end"
    }
  }

  /** One saved Wi-Fi network: an entry of `iTerminalInfo.networks`, and the `addnetwork` payload. */
  datatype Network = Network(ssid: string, password: string)

  datatype Shocker = Shocker(id: int, shockerType: int, paused: bool)

  /** The PiShock `TERMINALINFO` frame (`iTerminalInfo`). */
  datatype TerminalInfo = TerminalInfo(
    version: string,
    terminalType: int,
    connected: bool,
    wifi: string,
    server: string,
    macaddress: string,
    shockers: seq<Shocker>,
    networks: seq<Network>,
    claimed: bool,
    isDev: bool,
    publisher: bool,
    polled: bool,
    subscriber: bool,
    publicIp: string,
    internet: bool,
    ownerId: int)

  /** The value of an `operate` command. */
  datatype OperateValue = OperateValue(id: string, op: SerialOperateEnum, duration: int, intensity: int)

  /** `SerialCommands`: the typed command objects of the PiShock protocol. */
  datatype SerialCommand =
    | AddNetworkCommand(network: Network)
    | OperateCommand(operate: OperateValue)
    | NoValuesCommand(cmd: SerialCommandEnum)

  // ---------------------------------------------------------------------------
  // JSON views

  function NetworkJson(n: Network): Json
  {
    JObject([Member("ssid", JString(n.ssid)), Member("password", JString(n.password))])
  }

  function NetworksJson(ns: seq<Network>): Json
  {
    JArray(seq(|ns|, i requires 0 <= i < |ns| => NetworkJson(ns[i])))
  }

  function ShockerJson(sh: Shocker): Json
  {
    JObject([Member("id", JNumber(sh.id)), Member("type", JNumber(sh.shockerType)), Member("paused", JBool(sh.paused))])
  }

  /** The `TERMINALINFO` object as the device sends it (`type` is the JSON name of `terminalType`). */
  function TerminalInfoJson(t: TerminalInfo): Json
  {
    JObject([
      Member("version", JString(t.version)),
      Member("type", JNumber(t.terminalType)),
      Member("connected", JBool(t.connected)),
      Member("wifi", JString(t.wifi)),
      Member("server", JString(t.server)),
      Member("macaddress", JString(t.macaddress)),
      Member("shockers", JArray(seq(|t.shockers|, i requires 0 <= i < |t.shockers| => ShockerJson(t.shockers[i])))),
      Member("networks", NetworksJson(t.networks)),
      Member("claimed", JBool(t.claimed)),
      Member("isDev", JBool(t.isDev)),
      Member("publisher", JBool(t.publisher)),
      Member("polled", JBool(t.polled)),
      Member("subscriber", JBool(t.subscriber)),
      Member("publicIp", JString(t.publicIp)),
      Member("internet", JBool(t.internet)),
      Member("ownerId", JNumber(t.ownerId))])
  }

  function OperateJson(o: OperateValue): Json
  {
    JObject([
      Member("id", JString(o.id)),
      Member("op", JString(o.op.Text())),
      Member("duration", JNumber(o.duration)),
      Member("intensity", JNumber(o.intensity))])
  }

  /** The members of a command object: `cmd` first, then `value` where the command has one. */
  function CommandMembers(c: SerialCommand): seq<Member>
  {
    match c
    case AddNetworkCommand(n) => [Member("cmd", JString(AddNetwork.Text())), Member("value", NetworkJson(n))]
    case OperateCommand(o) => [Member("cmd", JString(Operate.Text())), Member("value", OperateJson(o))]
    case NoValuesCommand(cmd) => [Member("cmd", JString(cmd.Text()))]
  }
}
