/**
 * The `Device` session: the serial port and detected firmware it holds, the
 * commands it writes, and `flash`, which backs up the running firmware's
 * settings, downloads and checks an image, runs the flasher and restores the
 * saved settings. Everything the session does to the outside world is entered
 * in its effect log; prompt answers, fetched texts, the downloaded bytes and
 * the flasher's exit code are inputs.
 */
module Session {
  import opened Base
  import opened Json
  import opened Records
  import opened Commands
  import opened Detection
  import ET = EspTool
  import PS = PiShock
  import OS = OpenShock

  /** The speed the hub's port is opened at. */
  const BaudRate := 115200
  /** The delay before `findPort` looks again. */
  const RetryMillis := 1000
  /** How long `flash` waits for the hub to restart after a restore. */
  const RestartWaitMillis := 20000

  /** An opened serial port. */
  datatype Port = Port(path: string, baudRate: nat)

  /** What the session does to the world outside the model, in order. */
  datatype Effect =
    | SaveFile(name: string, data: Json)
    | Download(url: string)
    | WriteImage(image: seq<bv8>)
    | ClosePort
    | RunEsptool(args: seq<string>)
    | RemoveImage
    | OpenPort
    | Write(line: string)
    | Wait(millis: nat)

  /** Why `flash` rejects. */
  datatype FlashError =
    | UndefinedBackup
    | DownloadFailed(reason: string)
    | TruncateFailed(truncate: PS.TruncateError)
    | EsptoolFailed(message: string)
    | RestoreFailed(restore: RestoreError)

  /** How a call of `flash` ends. */
  datatype Outcome =
    | Exited                    // `process.exit(1)`: no flasher was found
    | Returned                  // the promise resolved
    | Rejected(error: FlashError)
    | ParseThrew                // `JSON.parse` threw inside the backup probe's serial listener: the
                                // exception is uncaught, so the process ends and `flash` never settles

  /** The answers and external results one call of `flash` meets. */
  datatype FlashEnv = FlashEnv(
    found: Option<string>,              // what the search for the flasher finds
    shouldSave: bool,                   // "Do you want to save your ... settings?"
    backup: Option<Option<Json>>,       // how the backup probe settles (`None`: its parse threw)
    shouldContinue: bool,               // "... Do you want to flash anyway?"
    usbC: bool,                         // "Does your hub have USB-C?"
    versionText: string,                // the fetched `version-stable.txt`
    board: string,                      // the OpenShock board picked
    download: Result<seq<bv8>, string>, // the downloaded image, or why the download failed
    imagePath: string,                  // the temporary file the image goes to
    exitCode: Option<int>,              // the flasher's exit code
    shouldLoadData: bool)               // "You have data saved ... Do you want to restore it?"

  /** The name of the settings file of a firmware, in the data directory. */
  function SaveName(f: BoardFirmware): string
  {
    f.Name() + ".json"
  }

  /** The image location for the chosen firmware. */
  function ImageUrl(target: BoardFirmware, env: FlashEnv): string
  {
    match target
    case PiShock => PS.FirmwareUrl(env.usbC)
    case OpenShock => OS.FirmwareUrl(env.versionText, env.board)
  }

  /** Neither URL is empty, so the "Could not get firmware url" exit cannot be taken. */
  lemma ImageUrlNotEmpty(target: BoardFirmware, env: FlashEnv)
    ensures ImageUrl(target, env) != ""
  {
    if target == OpenShock {
      assert |OS.Host| > 0;
    }
  }

  /**
   * The value to back up, from what the probe resolved with (`None` for
   * `null`): OpenShock keeps the whole configuration, `null` included;
   * PiShock keeps the `networks` property of the terminal information, and
   * `undefined` when there is none.
   */
  function BackupData(f: BoardFirmware, read: Option<Json>): (r: Option<Json>)
    ensures f == OpenShock ==> r.Some? && (read.Some? ==> r == read)
    ensures f == PiShock && r.Some? ==> read.Some? && read.value.JObject? && Get(read.value.members, "networks") == r
    ensures r.None? <==> f == PiShock && (read.None? || !read.value.JObject? || Get(read.value.members, "networks").None?)
  {
    match f
    case OpenShock => if read.Some? then read else Some(JNull)
    case PiShock => if read.Some? && read.value.JObject? then Get(read.value.members, "networks") else None
  }

  /** The backup step: none, stop there, or write this file. */
  datatype BackupStep =
    | NoBackup
    | Stop(outcome: Outcome)
    | Save(firmware: BoardFirmware, data: Json)

  function Backup(firmware: Option<BoardFirmware>, env: FlashEnv): (b: BackupStep)
    ensures b.NoBackup? <==> firmware.None? || !env.shouldSave
    ensures b.Save? ==>
      && firmware == Some(b.firmware) && env.backup.Some?
      && BackupData(b.firmware, env.backup.value) == Some(b.data)
      && (TruthyValue(Some(b.data)) || env.shouldContinue)
    ensures b.Stop? && b.outcome == Returned ==> !env.shouldContinue
    ensures firmware.Some? && env.shouldSave && env.backup.None? ==> b == Stop(ParseThrew)
    ensures firmware.Some? && env.shouldSave && env.backup.Some? ==>
      var data := BackupData(firmware.value, env.backup.value);
      && (!TruthyValue(data) && !env.shouldContinue <==> b == Stop(Returned))
      && (data.None? && env.shouldContinue <==> b == Stop(Rejected(UndefinedBackup)))
      && (data.Some? && (TruthyValue(data) || env.shouldContinue) ==> b == Save(firmware.value, data.value))
  {
    if firmware.None? || !env.shouldSave then NoBackup
    else if env.backup.None? then Stop(ParseThrew)
    else
      var data := BackupData(firmware.value, env.backup.value);
      if !TruthyValue(data) && !env.shouldContinue then Stop(Returned)
      else if data.None? then Stop(Rejected(UndefinedBackup))
      else Save(firmware.value, data.value)
  }

  // ---------------------------------------------------------------------------
  // The reference run of `flash`

  /** The part of the session `flash` reads, and whether the flasher wrapper is initialised. */
  datatype DeviceState = DeviceState(
    port: Option<Port>,
    portOpen: bool,
    firmware: Option<BoardFirmware>,
    saved: map<BoardFirmware, Json>,
    toolReady: bool)

  /** How a call of `flash` ends, what it did, and the saved files and port state it leaves. */
  datatype Run = Run(outcome: Outcome, effects: seq<Effect>, saved: map<BoardFirmware, Json>, portOpen: bool)

  /** The lines a list of accepted commands writes, as effects. */
  function Writes(lines: seq<string>): seq<Effect>
  {
    seq(|lines|, k requires 0 <= k < |lines| => Write(lines[k]))
  }

  /** Sending one more command appends the write of its line. */
  lemma WritesStep(cs: seq<Outgoing>, i: nat)
    requires i < |cs| && forall k :: 0 <= k < |cs| ==> Encode(cs[k]).Ok?
    ensures Writes(Lines(cs[..i + 1])) == Writes(Lines(cs[..i])) + [Write(Encode(cs[i]).value)]
  {
    assert Lines(cs[..i + 1]) == Lines(cs[..i]) + [Encode(cs[i]).value];
  }

  /** `flash(target)` from state `d`, after the effects `log`. */
  function FlashRun(d: DeviceState, target: BoardFirmware, env: FlashEnv, log: seq<Effect>): (r: Run)
    ensures r.outcome == Exited <==> !d.toolReady && !Truthy(env.found)
    ensures r.outcome == ParseThrew <==>
      (d.toolReady || Truthy(env.found)) && d.firmware.Some? && env.shouldSave && env.backup.None?
    ensures r.outcome == Exited || r.outcome == ParseThrew ==> r.effects == log
    ensures |log| <= |r.effects| && r.effects[..|log|] == log
    ensures d.saved.Keys <= r.saved.Keys
  {
    if !d.toolReady && !Truthy(env.found) then Run(Exited, log, d.saved, d.portOpen)
    else
      match Backup(d.firmware, env)
      case Stop(o) => Run(o, log, d.saved, d.portOpen)
      case NoBackup => Fetch(d, target, env, log)
      case Save(f, data) => Fetch(d.(saved := d.saved[f := data]), target, env, log + [SaveFile(SaveName(f), data)])
  }

  /** Download the image and cut it at the flash boundary; the cut is made whatever the target. */
  function Fetch(d: DeviceState, target: BoardFirmware, env: FlashEnv, log: seq<Effect>): (r: Run)
    ensures r.saved == d.saved && r.outcome != Exited && r.outcome != ParseThrew
    ensures |log| < |r.effects| && r.effects[..|log| + 1] == log + [Download(ImageUrl(target, env))]
    ensures r.outcome == Returned ==> env.download.Ok? && PS.TruncateBinary(env.download.value).Ok?
  {
    var log := log + [Download(ImageUrl(target, env))];
    match env.download
    case Err(reason) => Run(Rejected(DownloadFailed(reason)), log, d.saved, d.portOpen)
    case Ok(bytes) =>
      match PS.TruncateBinary(bytes)
      case Err(e) => Run(Rejected(TruncateFailed(e)), log, d.saved, d.portOpen)
      case Ok(image) => Burn(d, target, env, log + [WriteImage(image)])
  }

  /** Close the port, run the flasher, and on success remove the image and reopen the port. */
  function Burn(d: DeviceState, target: BoardFirmware, env: FlashEnv, log: seq<Effect>): (r: Run)
    ensures r.saved == d.saved && r.outcome != Exited && r.outcome != ParseThrew
    ensures |log| <= |r.effects| && r.effects[..|log|] == log
    ensures r.outcome == Returned ==> d.port.Some? && env.exitCode == Some(0) && r.portOpen
    ensures d.port.Some? && r.outcome.Rejected? && r.outcome.error.EsptoolFailed? ==> !r.portOpen
  {
    var log := if d.port.Some? then log + [ClosePort] else log;
    var open := d.port.None? && d.portOpen;
    if d.port.None? || d.port.value.path == "" then Run(Rejected(EsptoolFailed(ET.GuardMessage)), log, d.saved, open)
    else
      var args := ["--port", d.port.value.path, "write_flash"] + ET.FlashFlags(target) + [env.imagePath];
      var log := log + [RunEsptool(args)];
      match ET.ExitStatus(env.exitCode)
      case Err(m) => Run(Rejected(EsptoolFailed(m)), log, d.saved, open)
      case Ok(_) => Restore(d.saved, target, env, log + [RemoveImage, OpenPort])
  }

  /** The download and the flash do not look at whether the flasher wrapper was initialised before. */
  lemma FetchIgnoresTool(d: DeviceState, target: BoardFirmware, env: FlashEnv, log: seq<Effect>, ready: bool)
    ensures Fetch(d, target, env, log) == Fetch(d.(toolReady := ready), target, env, log)
  {
  }

  /** Offer the settings saved for the new firmware, send them, and wait for the restart. */
  function Restore(saved: map<BoardFirmware, Json>, target: BoardFirmware, env: FlashEnv, log: seq<Effect>): (r: Run)
    ensures r.saved == saved && r.portOpen
    ensures r.outcome == Returned || (r.outcome.Rejected? && r.outcome.error.RestoreFailed?)
    ensures r.outcome.Rejected? ==> r.effects == log
    ensures |log| <= |r.effects| && r.effects[..|log|] == log
    ensures |r.effects| > |log| ==> r.effects[|r.effects| - 1] == Wait(RestartWaitMillis)
  {
    if target !in saved || !env.shouldLoadData then Run(Returned, log, saved, true)
    else
      match RestoreCommands(target, saved[target])
      case Err(e) => Run(Rejected(RestoreFailed(e)), log, saved, true)
      case Ok(cs) =>
        Run(Returned, log + Writes(Lines(cs)) + [Wait(RestartWaitMillis)], saved, true)
  }

  // ---------------------------------------------------------------------------
  // What a run does

  /** A declined backup, or one that cannot be written, ends `flash` before anything is downloaded. */
  lemma BackupStopsBeforeDownload(d: DeviceState, target: BoardFirmware, env: FlashEnv, log: seq<Effect>)
    requires d.toolReady || Truthy(env.found)
    requires d.firmware.Some? && env.shouldSave && env.backup.Some?
    requires !TruthyValue(BackupData(d.firmware.value, env.backup.value))
    ensures !env.shouldContinue ==> FlashRun(d, target, env, log) == Run(Returned, log, d.saved, d.portOpen)
    ensures env.shouldContinue && BackupData(d.firmware.value, env.backup.value).None? ==>
      FlashRun(d, target, env, log) == Run(Rejected(UndefinedBackup), log, d.saved, d.portOpen)
  {
  }

  /**
   * A backup that goes ahead writes `<firmware>.json` before the download,
   * and that file stays saved whatever happens afterwards.
   */
  lemma BackupSavedFirst(d: DeviceState, target: BoardFirmware, env: FlashEnv, log: seq<Effect>)
    requires d.toolReady || Truthy(env.found)
    requires Backup(d.firmware, env).Save?
    ensures var b := Backup(d.firmware, env);
      var r := FlashRun(d, target, env, log);
      && b.firmware == d.firmware.value
      && Some(b.data) == BackupData(d.firmware.value, env.backup.value)
      && |r.effects| >= |log| + 2
      && r.effects[|log|] == SaveFile(SaveName(b.firmware), b.data)
      && r.effects[|log| + 1] == Download(ImageUrl(target, env))
      && r.saved == d.saved[b.firmware := b.data]
  {
    var b := Backup(d.firmware, env);
    var log1 := log + [SaveFile(SaveName(b.firmware), b.data)];
    var d1 := d.(saved := d.saved[b.firmware := b.data]);
    assert FlashRun(d, target, env, log) == Fetch(d1, target, env, log1);
    var r := Fetch(d1, target, env, log1);
    assert r.effects[|log|] == r.effects[..|log1| + 1][|log|];
    assert r.effects[|log| + 1] == r.effects[..|log1| + 1][|log1|];
  }

  /** Of a whole `TERMINALINFO` object, the PiShock backup keeps exactly its saved networks. */
  lemma TerminalInfoBackup(t: TerminalInfo)
    ensures BackupData(PiShock, Some(TerminalInfoJson(t))) == Some(NetworksJson(t.networks))
  {
    var ms := TerminalInfoJson(t).members;
    GetSkip(ms, 7, "networks");
  }

  /** The PiShock backup keeps just the `networks` of the terminal information the probe read. */
  lemma PiShockBackupIsNetworks(d: DeviceState, target: BoardFirmware, env: FlashEnv, log: seq<Effect>, members: seq<Member>, ns: seq<Network>)
    requires d.toolReady || Truthy(env.found)
    requires d.firmware == Some(PiShock) && env.shouldSave && env.backup == Some(Some(JObject(members)))
    requires Get(members, "networks") == Some(NetworksJson(ns))
    ensures var r := FlashRun(d, target, env, log);
      r.effects[|log|] == SaveFile("PiShock.json", NetworksJson(ns)) && r.saved == d.saved[PiShock := NetworksJson(ns)]
  {
    assert Backup(d.firmware, env) == Save(PiShock, NetworksJson(ns));
    BackupSavedFirst(d, target, env, log);
  }

  /** When the OpenShock probe times out and the user flashes anyway, `null` is what gets saved. */
  lemma TimedOutConfigSavedAsNull(d: DeviceState, env: FlashEnv)
    requires d.firmware == Some(OpenShock) && env.shouldSave && env.backup == Some(None) && env.shouldContinue
    ensures Backup(d.firmware, env) == Save(OpenShock, JNull)
  {
  }

  /**
   * The image is cut at the flash boundary whatever the target: an image of
   * either firmware with a non-padding byte past it makes `flash` reject right
   * after the download, before the port is touched or the flasher run.
   */
  lemma TruncationForEveryTarget(d: DeviceState, target: BoardFirmware, env: FlashEnv, log: seq<Effect>, i: nat)
    requires env.download.Ok? && PS.TruncateSize <= i < |env.download.value| && env.download.value[i] != PS.Padding
    ensures Fetch(d, target, env, log) ==
      Run(Rejected(TruncateFailed(PS.NotAllPadding(env.download.value[PS.TruncateSize..]))),
          log + [Download(ImageUrl(target, env))], d.saved, d.portOpen)
  {
    PS.NonPaddingRejected(env.download.value, i);
  }

  /**
   * With a port and a zero exit code: the port is closed, the flasher run
   * with the argument list for the target, then the image removed and the
   * port reopened, in that order.
   */
  lemma FlashSucceeds(d: DeviceState, target: BoardFirmware, env: FlashEnv, log: seq<Effect>)
    requires d.port.Some? && d.port.value.path != "" && env.exitCode == Some(0)
    ensures var r := Burn(d, target, env, log);
      var args := ["--port", d.port.value.path, "write_flash"] + ET.FlashFlags(target) + [env.imagePath];
      && |r.effects| >= |log| + 4
      && r.effects[..|log| + 4] == log + [ClosePort, RunEsptool(args), RemoveImage, OpenPort]
      && r.portOpen && r.saved == d.saved
  {
    var args := ["--port", d.port.value.path, "write_flash"] + ET.FlashFlags(target) + [env.imagePath];
    var log1 := log + [ClosePort, RunEsptool(args), RemoveImage, OpenPort];
    assert log + [ClosePort] + [RunEsptool(args)] + [RemoveImage, OpenPort] == log1;
    assert Burn(d, target, env, log) == Restore(d.saved, target, env, log1);
  }

  /** Any other exit code rejects with the code in the message; the image stays and the port stays closed. */
  lemma FlashFailsWithoutCleanup(d: DeviceState, target: BoardFirmware, env: FlashEnv, log: seq<Effect>)
    requires d.port.Some? && d.port.value.path != "" && env.exitCode != Some(0)
    ensures var args := ["--port", d.port.value.path, "write_flash"] + ET.FlashFlags(target) + [env.imagePath];
      Burn(d, target, env, log) ==
        Run(Rejected(EsptoolFailed("ESPTool exited with code " + ET.CodeText(env.exitCode))),
            log + [ClosePort, RunEsptool(args)], d.saved, false)
  {
    var args := ["--port", d.port.value.path, "write_flash"] + ET.FlashFlags(target) + [env.imagePath];
    assert log + [ClosePort] + [RunEsptool(args)] == log + [ClosePort, RunEsptool(args)];
  }

  /** Without a port path the flasher refuses before running, and nothing is cleaned up. */
  lemma NoPortNoFlash(d: DeviceState, target: BoardFirmware, env: FlashEnv, log: seq<Effect>)
    requires d.port.None? || d.port.value.path == ""
    ensures var r := Burn(d, target, env, log);
      r.outcome == Rejected(EsptoolFailed(ET.GuardMessage))
      && (forall k :: |log| <= k < |r.effects| ==> r.effects[k] == ClosePort)
      && (d.port.Some? ==> !r.portOpen)
  {
  }

  /** Declining the restore, or having nothing saved for the target, ends `flash` without writing or waiting. */
  lemma NoRestoreNoWait(saved: map<BoardFirmware, Json>, target: BoardFirmware, env: FlashEnv, log: seq<Effect>)
    requires target !in saved || !env.shouldLoadData
    ensures Restore(saved, target, env, log) == Run(Returned, log, saved, true)
  {
  }

  /** An OpenShock restore writes one line with the whole saved configuration, then waits for the restart. */
  lemma RestoreOpenShock(saved: map<BoardFirmware, Json>, env: FlashEnv, log: seq<Effect>)
    requires OpenShock in saved && env.shouldLoadData
    ensures var r := Restore(saved, OpenShock, env, log);
      && r.outcome == Returned
      && r.effects == log + [Write("jsonconfig " + Stringify(saved[OpenShock]) + "\n"), Wait(RestartWaitMillis)]
      && OneLine("jsonconfig " + Stringify(saved[OpenShock]) + "\n")
  {
    RestoreOpenShockIsOneLine(saved[OpenShock]);
    var cs := RestoreCommands(OpenShock, saved[OpenShock]).value;
    assert Writes(Lines(cs)) == [Write("jsonconfig " + Stringify(saved[OpenShock]) + "\n")];
  }

  /** The line `sendCommand` writes for the `addnetwork` command of a network. */
  function AddNetworkLine(n: Network): string
  {
    Stringify(JObject(CommandMembers(AddNetworkCommand(n)))) + "\n"
  }

  /** A PiShock restore writes one `addnetwork` line per saved network, in saved order, then waits for the restart. */
  lemma RestorePiShockNetworks(saved: map<BoardFirmware, Json>, env: FlashEnv, log: seq<Effect>, ns: seq<Network>)
    requires saved == saved[PiShock := NetworksJson(ns)] && env.shouldLoadData
    ensures var r := Restore(saved, PiShock, env, log);
      && r.outcome == Returned
      && r.effects[..|log|] == log
      && NetworkLinesAfter(r.effects, |log|, ns)
  {
    RestoreNetworksInOrder(ns);
    var cs := RestoreCommands(PiShock, NetworksJson(ns)).value;
    var r := Restore(saved, PiShock, env, log);
    assert r.effects == log + Writes(Lines(cs)) + [Wait(RestartWaitMillis)];
    forall k | 0 <= k < |ns|
      ensures r.effects[|log| + k] == Write(AddNetworkLine(ns[k]))
    {
      assert r.effects[|log| + k] == Writes(Lines(cs))[k];
      assert cs[k] == CommandObject(AddNetworkCommand(ns[k]));
    }
  }

  /** A saved PiShock value that is `null` cannot be walked: the restore throws before writing anything. */
  lemma RestoreOfNullThrows(saved: map<BoardFirmware, Json>, env: FlashEnv, log: seq<Effect>)
    requires PiShock in saved && saved[PiShock] == JNull && env.shouldLoadData
    ensures Restore(saved, PiShock, env, log) == Run(Rejected(RestoreFailed(NotIterable(JNull))), log, saved, true)
  {
  }

  /**
   * Backing up a PiShock hub and flashing PiShock again brings the networks
   * back: after a successful flash the restore writes one `addnetwork` line
   * per network the backup read, in the order the hub reported them.
   */
  lemma NetworksSurviveReflash(d: DeviceState, env: FlashEnv, log: seq<Effect>, members: seq<Member>, ns: seq<Network>)
    requires d.toolReady || Truthy(env.found)
    requires d.firmware == Some(PiShock) && env.shouldSave && env.backup == Some(Some(JObject(members)))
    requires Get(members, "networks") == Some(NetworksJson(ns))
    requires env.download.Ok? && PS.TruncateBinary(env.download.value).Ok?
    requires d.port.Some? && d.port.value.path != "" && env.exitCode == Some(0)
    requires env.shouldLoadData
    ensures FlashRun(d, PiShock, env, log).outcome == Returned
    ensures EndsWithNetworkLines(FlashRun(d, PiShock, env, log).effects, ns)
  {
    var saved := d.saved[PiShock := NetworksJson(ns)];
    var log3 := ReflashReachesRestore(d, env, log, members, ns);
    RestorePiShockNetworks(saved, env, log3, ns);
  }

  /** The effect log ends with one `addnetwork` line per network, in order, and then the restart wait. */
  predicate EndsWithNetworkLines(effects: seq<Effect>, ns: seq<Network>)
  {
    |effects| >= |ns| + 1 && NetworkLinesAfter(effects, |effects| - |ns| - 1, ns)
  }

  /** After the first `n` effects come one `addnetwork` line per network, in order, and the restart wait. */
  predicate NetworkLinesAfter(effects: seq<Effect>, n: nat, ns: seq<Network>)
  {
    && |effects| == n + |ns| + 1
    && (forall k :: 0 <= k < |ns| ==> effects[n + k] == Write(AddNetworkLine(ns[k])))
    && effects[n + |ns|] == Wait(RestartWaitMillis)
  }

  /** The steps of a successful PiShock reflash before the restore: the run is the restore of the backed-up networks. */
  lemma ReflashReachesRestore(d: DeviceState, env: FlashEnv, log: seq<Effect>, members: seq<Member>, ns: seq<Network>)
    returns (log3: seq<Effect>)
    requires d.toolReady || Truthy(env.found)
    requires d.firmware == Some(PiShock) && env.shouldSave && env.backup == Some(Some(JObject(members)))
    requires Get(members, "networks") == Some(NetworksJson(ns))
    requires env.download.Ok? && PS.TruncateBinary(env.download.value).Ok?
    requires d.port.Some? && d.port.value.path != "" && env.exitCode == Some(0)
    ensures FlashRun(d, PiShock, env, log) == Restore(d.saved[PiShock := NetworksJson(ns)], PiShock, env, log3)
  {
    var saved := d.saved[PiShock := NetworksJson(ns)];
    var d1 := d.(saved := saved);
    assert Backup(d.firmware, env) == Save(PiShock, NetworksJson(ns));
    var log1 := log + [SaveFile(SaveName(PiShock), NetworksJson(ns))];
    var log2 := log1 + [Download(ImageUrl(PiShock, env))] + [WriteImage(PS.TruncateBinary(env.download.value).value)];
    var args := ["--port", d.port.value.path, "write_flash"] + ET.FlashFlags(PiShock) + [env.imagePath];
    log3 := log2 + [ClosePort] + [RunEsptool(args)] + [RemoveImage, OpenPort];
    assert FlashRun(d, PiShock, env, log) == Fetch(d1, PiShock, env, log1);
    assert Fetch(d1, PiShock, env, log1) == Burn(d1, PiShock, env, log2);
    assert Burn(d1, PiShock, env, log2) == Restore(saved, PiShock, env, log3);
  }

  // ---------------------------------------------------------------------------
  // The device

  class Device {
    /** The flasher wrapper `flash` uses (the module's shared export). */
    const tool: ET.EspTool
    var port: Option<Port>
    var portOpen: bool
    var firmware: Option<BoardFirmware>
    /** The settings files in the data directory. */
    var saved: map<BoardFirmware, Json>
    var effects: seq<Effect>

    /** The state `flash` reads. */
    function State(): DeviceState
      reads this, tool
    {
      DeviceState(port, portOpen, firmware, saved, tool.initialized)
    }

    /** A new session, with no port and no firmware yet; looking for the port is `FindPort`. */
    constructor(tool: ET.EspTool, saved: map<BoardFirmware, Json>)
      ensures this.tool == tool && this.saved == saved
      ensures port == None && !portOpen && firmware == None && effects == []
    {
      this.tool := tool;
      this.saved := saved;
      port := None;
      portOpen := false;
      firmware := None;
      effects := [];
    }

    /**
     * `sendCommand`: a text goes out as itself and a line feed, an object as
     * its JSON text and a line feed; an object without a truthy `cmd` is
     * refused before anything is written, and there must be a port.
     */
    method SendCommand(c: Outgoing) returns (r: Result<(), CommandError>)
      modifies this`effects
      ensures Encode(c).Err? ==> r == Err(MissingCmd) && effects == old(effects)
      ensures Encode(c).Ok? && port.None? ==> r == Err(NoPort) && effects == old(effects)
      ensures Encode(c).Ok? && port.Some? ==> r == Ok(()) && effects == old(effects) + [Write(Encode(c).value)]
    {
      var line := Encode(c);
      if line.Err? {
        return Err(line.error);
      }
      if port.None? {
        return Err(NoPort);
      }
      effects := effects + [Write(line.value)];
      return Ok(());
    }

    /**
     * `findPort` with the listing `ports`: open the first hub port at
     * `BaudRate`, or leave everything as it is and look again after `RetryMillis`.
     */
    method FindPort(ports: seq<PortInfo>) returns (retryAfter: Option<nat>)
      modifies this`port, this`portOpen
      ensures FindPiShockPort(ports).None? ==>
        retryAfter == Some(RetryMillis) && port == old(port) && portOpen == old(portOpen)
      ensures FindPiShockPort(ports).Some? ==>
        retryAfter == None && port == Some(Port(ports[FindPiShockPort(ports).value].path, BaudRate)) && portOpen
    {
      var found := FindPiShockPort(ports);
      if found.None? {
        return Some(RetryMillis);
      }
      port := Some(Port(ports[found.value].path, BaudRate));
      portOpen := true;
      retryAfter := None;
    }

    /**
     * `detectFirmware`, with the probes settling in the order `cs`: outside
     * debug mode the race's answer is stored. The race is left open only
     * when a probe's `JSON.parse` threw in its listener, which ends the
     * process (`crashed`) before anything is stored.
     */
    method DetectFirmware(debug: bool, cs: seq<Completion>) returns (crashed: bool)
      requires WellFormed(cs)
      modifies this`firmware
      ensures debug ==> !crashed && firmware == old(firmware)
      ensures !debug && Detected(cs).Some? ==> !crashed && firmware == Detected(cs).value
      ensures !debug && Detected(cs).None? ==> crashed && firmware == old(firmware)
    {
      crashed := false;
      if !debug {
        var settled := RunRace(cs);
        if settled.None? {
          return true;
        }
        firmware := settled.value;
      }
    }

    /** `flash(target)`: every step as the reference run `FlashRun` takes it. */
    method Flash(target: BoardFirmware, env: FlashEnv) returns (outcome: Outcome)
      requires tool.Valid()
      modifies this`effects, this`saved, this`portOpen, tool
      ensures tool.Valid() && (outcome != Exited ==> tool.initialized)
      ensures port == old(port) && firmware == old(firmware)
      ensures var run := FlashRun(old(State()), target, env, old(effects));
        outcome == run.outcome && effects == run.effects && saved == run.saved && portOpen == run.portOpen
    {
      ghost var d0, log0 := State(), effects;
      var exited := tool.Init(env.found);
      if exited {
        return Exited;
      }
      var backup := Backup(firmware, env);
      match backup {
        case Stop(o) =>
          return o;
        case NoBackup =>
        case Save(f, data) =>
          saved := saved[f := data];
          effects := effects + [SaveFile(SaveName(f), data)];
      }
      assert FlashRun(d0, target, env, log0) == Fetch(State(), target, env, effects) by {
        FetchIgnoresTool(State(), target, env, effects, d0.toolReady);
      }
      outcome := FetchAndBurn(target, env);
    }

    /** The steps from the download on: see `Fetch`. */
    method FetchAndBurn(target: BoardFirmware, env: FlashEnv) returns (outcome: Outcome)
      requires tool.Valid() && tool.initialized
      modifies this`effects, this`portOpen, tool
      ensures tool.Valid() && tool.initialized
      ensures port == old(port) && firmware == old(firmware) && saved == old(saved)
      ensures var run := Fetch(old(State()), target, env, old(effects));
        outcome == run.outcome && effects == run.effects && portOpen == run.portOpen
    {
      effects := effects + [Download(ImageUrl(target, env))];
      if env.download.Err? {
        return Rejected(DownloadFailed(env.download.error));
      }
      var cut := PS.TruncateBinary(env.download.value);
      if cut.Err? {
        return Rejected(TruncateFailed(cut.error));
      }
      effects := effects + [WriteImage(cut.value)];
      outcome := BurnImage(target, env);
    }

    /** Close the port, flash, clean up: see `Burn`. */
    method BurnImage(target: BoardFirmware, env: FlashEnv) returns (outcome: Outcome)
      requires tool.Valid() && tool.initialized
      modifies this`effects, this`portOpen, tool
      ensures tool.Valid() && tool.initialized
      ensures var run := Burn(old(State()), target, env, old(effects));
        outcome == run.outcome && effects == run.effects && portOpen == run.portOpen
    {
      ghost var d0, log0 := State(), effects;
      if port.Some? {
        effects := effects + [ClosePort];
        portOpen := false;
      }
      var portPath := if port.Some? then Some(port.value.path) else None;
      var args, r := tool.Flash(portPath, env.imagePath, target, env.exitCode);
      if args.Some? {
        effects := effects + [RunEsptool(args.value)];
      }
      if r.Err? {
        assert Burn(d0, target, env, log0) == Run(Rejected(EsptoolFailed(r.error)), effects, saved, portOpen);
        return Rejected(EsptoolFailed(r.error));
      }
      assert Burn(d0, target, env, log0) == Restore(saved, target, env, effects + [RemoveImage, OpenPort]);
      outcome := CleanUpAndRestore(target, env);
    }

    /** After a successful flash: remove the image, reopen the port, then the restore offer. */
    method CleanUpAndRestore(target: BoardFirmware, env: FlashEnv) returns (outcome: Outcome)
      requires port.Some?
      modifies this`effects, this`portOpen
      ensures portOpen
      ensures var run := Restore(saved, target, env, old(effects) + [RemoveImage, OpenPort]);
        outcome == run.outcome && effects == run.effects
    {
      effects := effects + [RemoveImage, OpenPort];
      portOpen := true;
      outcome := RestoreSaved(target, env);
    }

    /** The restore offer: see `Restore`. */
    method RestoreSaved(target: BoardFirmware, env: FlashEnv) returns (outcome: Outcome)
      requires port.Some?
      modifies this`effects
      ensures var run := Restore(saved, target, env, old(effects));
        outcome == run.outcome && effects == run.effects
    {
      if target !in saved || !env.shouldLoadData {
        return Returned;
      }
      var commands := RestoreCommands(target, saved[target]);
      if commands.Err? {
        return Rejected(RestoreFailed(commands.error));
      }
      var cs := commands.value;
      ghost var before := effects;
      for i := 0 to |cs|
        invariant effects == before + Writes(Lines(cs[..i]))
      {
        var sent := SendCommand(cs[i]);
        WritesStep(cs, i);
      }
      assert cs[..|cs|] == cs;
      effects := effects + [Wait(RestartWaitMillis)];
      return Returned;
    }
  }
}
