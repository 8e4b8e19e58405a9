/**
 * Tello: the facade a pilot program talks to. It owns the "is flying"
 * flag, issues the ordered command sequences of connect and disconnect,
 * formats the discrete motion commands, and maps each telemetry accessor
 * to its key.
 *
 * The command channel is seen from outside: every call the facade makes on
 * it is an event in `log`, and the reply to a discrete command is what the
 * oracle `respond` gives for the log that ends with that command. The
 * telemetry slot and the camera's latest frame are passed in as values.
 */
module Tello {
  import opened Wrappers
  import opened Text
  import opened Channel
  import TelloState

  // ---------------------------------------------------------------------
  // Discrete motions
  // ---------------------------------------------------------------------

  /** `up` ... `ccw`: the eight one-parameter motion commands. */
  datatype Motion = Up | Down | Left | Right | Forward | Back | Cw | Ccw

  function Verb(m: Motion): (v: string)
    ensures |v| >= 2 && ' ' !in v
    ensures forall i :: 0 <= i < |v| ==> 'a' <= v[i] <= 'z'
  {
    match m
    case Up => "up"
    case Down => "down"
    case Left => "left"
    case Right => "right"
    case Forward => "forward"
    case Back => "back"
    case Cw => "cw"
    case Ccw => "ccw"
  }

  /** The motion a verb names, if any. */
  function MotionOfVerb(v: string): Option<Motion> {
    if v == "up" then Some(Up)
    else if v == "down" then Some(Down)
    else if v == "left" then Some(Left)
    else if v == "right" then Some(Right)
    else if v == "forward" then Some(Forward)
    else if v == "back" then Some(Back)
    else if v == "cw" then Some(Cw)
    else if v == "ccw" then Some(Ccw)
    else None
  }

  /** `'<verb> {}'.format(n)`: two words, the verb and the magnitude in decimal. */
  function MotionCommand(m: Motion, n: int): (c: string)
    ensures Split(c, ' ') == [Verb(m), IntToString(n)]
  {
    var parts := [Verb(m), IntToString(n)];
    assert Join(parts, ' ') == Verb(m) + " " + IntToString(n);
    SplitJoin(parts, ' ');
    Verb(m) + " " + IntToString(n)
  }

  /** Reads a motion command back into its motion and magnitude. */
  function ParseMotion(s: string): Option<(Motion, int)> {
    var parts := Split(s, ' ');
    if |parts| != 2 then None
    else match (MotionOfVerb(parts[0]), ParseInt(parts[1]))
      case (Some(m), Some(n)) => Some((m, n))
      case _ => None
  }

  lemma VerbNamesMotion(m: Motion)
    ensures MotionOfVerb(Verb(m)) == Some(m)
  {
    match m
    case Up =>
    case Down =>
    case Left => assert "left"[0] != "down"[0];
    case Right =>
    case Forward =>
    case Back => assert "back"[0] != "down"[0] && "back"[0] != "left"[0];
    case Cw => assert "cw"[0] != "up"[0];
    case Ccw =>
  }

  /**
   * A motion command is exactly the motion's verb, one space and the
   * magnitude in decimal: distinct motions or magnitudes give distinct
   * commands.
   */
  lemma MotionCommandRoundTrip(m: Motion, n: int)
    ensures ParseMotion(MotionCommand(m, n)) == Some((m, n))
  {
    VerbNamesMotion(m);
    ParseIntRoundTrip(n);
  }

  // ---------------------------------------------------------------------
  // Telemetry accessors
  // ---------------------------------------------------------------------

  /** The accessors that read one telemetry key: `get_flight_time` ... `get_yaw`. */
  datatype Reading =
    | FlightTime | Barometer
    | Height | DistanceTof
    | AccelX | AccelY | AccelZ
    | VelocityX | VelocityY | VelocityZ
    | Roll | Pitch | Yaw

  /** The key each accessor passes to `get_state`. */
  function ReadingKey(r: Reading): (key: string)
    ensures key != "" && TelloState.Plain(key)
  {
    match r
    case FlightTime => "time"
    case Barometer => "baro"
    case Height => "h"
    case DistanceTof => "tof"
    case AccelX => "agx"
    case AccelY => "agy"
    case AccelZ => "agz"
    case VelocityX => "vg" + "x"
    case VelocityY => "vg" + "y"
    case VelocityZ => "vg" + "z"
    case Roll => "roll"
    case Pitch => "pitch"
    case Yaw => "yaw"
  }

  /** The accessor that reads a key, if any. */
  function ReadingOfKey(key: string): Option<Reading> {
    if key == "time" then Some(FlightTime)
    else if key == "baro" then Some(Barometer)
    else if key == "h" then Some(Height)
    else if key == "tof" then Some(DistanceTof)
    else if key == "agx" then Some(AccelX)
    else if key == "agy" then Some(AccelY)
    else if key == "agz" then Some(AccelZ)
    else if key == "vg" + "x" then Some(VelocityX)
    else if key == "vg" + "y" then Some(VelocityY)
    else if key == "vg" + "z" then Some(VelocityZ)
    else if key == "roll" then Some(Roll)
    else if key == "pitch" then Some(Pitch)
    else if key == "yaw" then Some(Yaw)
    else None
  }

  lemma KeyNamesReading(r: Reading)
    ensures ReadingOfKey(ReadingKey(r)) == Some(r)
  {
    match r
    case FlightTime =>
    case Barometer => assert "baro"[0] != "time"[0];
    case Height =>
    case DistanceTof =>
    case AccelX =>
    case AccelY => assert "agy"[2] != "agx"[2];
    case AccelZ => assert "agz"[2] != "agx"[2] && "agz"[2] != "agy"[2];
    case VelocityX => assert ("vg" + "x")[0] != "agx"[0];
    case VelocityY => assert ("vg" + "y")[0] != "agx"[0] && ("vg" + "y")[2] != ("vg" + "x")[2];
    case VelocityZ =>
      assert ("vg" + "z")[0] != "agx"[0];
      assert ("vg" + "z")[2] != ("vg" + "x")[2] && ("vg" + "z")[2] != ("vg" + "y")[2];
    case Roll => assert "roll"[0] != "time"[0] && "roll"[0] != "baro"[0];
    case Pitch =>
    case Yaw => assert "yaw"[0] != "tof"[0] && "yaw"[0] != "agx"[0] && "yaw"[0] != ("vg" + "x")[0];
  }

  /** No two accessors read the same key. */
  lemma ReadingKeyInjective(a: Reading, b: Reading)
    ensures ReadingKey(a) == ReadingKey(b) <==> a == b
  {
    KeyNamesReading(a);
    KeyNamesReading(b);
  }

  // ---------------------------------------------------------------------
  // Temperature
  // ---------------------------------------------------------------------

  /**
   * `get_temp` as written: `(temph + templ) / 2` on the two looked-up
   * strings. Adding two strings concatenates them and dividing a string
   * by 2 raises TypeError, as does adding None; so unless a lookup raises
   * first, the call raises TypeError and never returns a temperature.
   */
  function GetTempAsWritten(telemetry: Option<string>): (r: Result<real, Fault>)
    ensures r.Err?
    ensures (TelloState.Get(telemetry, Some("temph")).Ok? && TelloState.Get(telemetry, Some("templ")).Ok?)
            ==> r == Err(UnsupportedOperand)
  {
    var high := TelloState.Get(telemetry, Some("temph"));
    var low := TelloState.Get(telemetry, Some("templ"));
    if high.Err? then Err(high.error)
    else if low.Err? then Err(low.error)
    else Err(UnsupportedOperand)
  }

  /** A telemetry entry read as a decimal integer, if present and well formed. */
  function IntegerEntry(telemetry: Option<string>, key: string): Option<int> {
    var entry := TelloState.Get(telemetry, Some(key));
    if entry.Ok? && entry.value.Some? then ParseInt(entry.value.value) else None
  }

  /** The mean of two readings, when both are present. */
  function Mean(high: Option<int>, low: Option<int>): (r: Option<real>)
    ensures r.Some? <==> high.Some? && low.Some?
    ensures r.Some? ==>
              && r.value + r.value == (high.value + low.value) as real
              && ((high.value as real <= r.value <= low.value as real) || (low.value as real <= r.value <= high.value as real))
  {
    if high.Some? && low.Some? then Some((high.value + low.value) as real / 2.0) else None
  }

  /**
   * `get_temp` as intended: the mean of the two temperature readings,
   * when both are present and are decimal integers.
   */
  function Temperature(telemetry: Option<string>): (r: Option<real>)
    ensures r.Some? <==> IntegerEntry(telemetry, "temph").Some? && IntegerEntry(telemetry, "templ").Some?
    ensures r.Some? ==>
              var high, low := IntegerEntry(telemetry, "temph").value as real, IntegerEntry(telemetry, "templ").value as real;
              (high <= r.value <= low) || (low <= r.value <= high)
  {
    Mean(IntegerEntry(telemetry, "temph"), IntegerEntry(telemetry, "templ"))
  }

  /** In a broadcast, the entry first keyed `key` holding `n` reads as `n`. */
  lemma IntegerEntryOfFrame(keys: seq<string>, values: seq<string>, key: string, i: nat, n: int)
    requires |keys| == |values|
    requires forall k :: 0 <= k < |keys| ==> TelloState.Plain(keys[k]) && TelloState.Plain(values[k])
    requires i < |keys| && keys[i] == key && values[i] == IntToString(n)
    requires forall k :: 0 <= k < i ==> keys[k] != key
    ensures IntegerEntry(Some(TelloState.Frame(keys, values)), key) == Some(n)
  {
    TelloState.FrameLookup(keys, values, key);
    ParseIntRoundTrip(n);
  }

  /**
   * In a broadcast whose temperature entries carry the integers `high` and
   * `low`, the intended `get_temp` is their mean: 69 for 70 and 68.
   */
  lemma TemperatureOfFrame(keys: seq<string>, values: seq<string>, i: nat, j: nat, high: int, low: int)
    requires |keys| == |values|
    requires forall k :: 0 <= k < |keys| ==> TelloState.Plain(keys[k]) && TelloState.Plain(values[k])
    requires i < |keys| && keys[i] == "temph" && values[i] == IntToString(high)
    requires forall k :: 0 <= k < i ==> keys[k] != "temph"
    requires j < |keys| && keys[j] == "templ" && values[j] == IntToString(low)
    requires forall k :: 0 <= k < j ==> keys[k] != "templ"
    ensures var t := Temperature(Some(TelloState.Frame(keys, values)));
            t.Some? && t.value == (high + low) as real / 2.0
  {
    IntegerEntryOfFrame(keys, values, "temph", i, high);
    IntegerEntryOfFrame(keys, values, "templ", j, low);
    TemperatureOfEntries(Some(TelloState.Frame(keys, values)), high, low);
  }

  lemma TemperatureOfEntries(telemetry: Option<string>, high: int, low: int)
    requires IntegerEntry(telemetry, "temph") == Some(high)
    requires IntegerEntry(telemetry, "templ") == Some(low)
    ensures Temperature(telemetry).Some? && Temperature(telemetry).value == (high + low) as real / 2.0
  {
  }

  /**
   * A broadcast carrying `temph:70;templ:68;`: as written `get_temp`
   * raises TypeError, as intended it is 69.
   */
  lemma TemperatureExample()
    ensures var frame := Some(TelloState.Frame(["temph", "templ"], [IntToString(70), IntToString(68)]));
            && GetTempAsWritten(frame) == Err(UnsupportedOperand)
            && Temperature(frame).Some? && Temperature(frame).value == 69.0
  {
    var keys := ["temph", "templ"];
    var values := [IntToString(70), IntToString(68)];
    forall k | 0 <= k < 2 ensures TelloState.Plain(keys[k]) && TelloState.Plain(values[k]) {
      DigitsArePlain(values[k]);
    }
    assert "templ" != "temph" by { assert "templ"[4] != "temph"[4]; }
    TemperatureOfFrame(keys, values, 0, 1, 70, 68);
    TelloState.FrameLookup(keys, values, "temph");
    TelloState.FrameLookup(keys, values, "templ");
  }

  lemma DigitsArePlain(s: string)
    requires IsDigits(s) || (|s| >= 1 && s[0] == '-' && IsDigits(s[1..]))
    ensures TelloState.Plain(s)
  {
  }

  // ---------------------------------------------------------------------
  // The facade object
  // ---------------------------------------------------------------------

  /** A decoded camera image, opaque here. */
  datatype Image = Image(pixels: seq<int>)

  /** A call the facade makes on one of its channels. */
  datatype Event =
    | CommandStarted
    | StateStarted
    | CamStarted
    | Sent(command: string)
    | RcRequested(lr: int, fb: int, ud: int, yaw: int)
    | CamStopped
    | StateStopped
    | CommandStopped

  /** What `connect` does, in order. */
  function ConnectEvents(hasVideo: bool): (events: seq<Event>)
    ensures |events| >= 2 && events[..2] == [CommandStarted, StateStarted]
    ensures hasVideo ==> events[2..] == [Sent("streamoff"), Sent("streamon"), CamStarted]
    ensures !hasVideo ==> |events| == 2
  {
    [CommandStarted, StateStarted] + (if hasVideo then [Sent("streamoff"), Sent("streamon"), CamStarted] else [])
  }

  /** What `disconnect` does, in order. */
  function DisconnectEvents(isFlying: bool, hasVideo: bool): (events: seq<Event>)
    ensures |events| == 2 + (if isFlying then 1 else 0) + (if hasVideo then 2 else 0)
    ensures |events| >= 2 && events[|events| - 2..] == [StateStopped, CommandStopped]
    ensures hasVideo ==> events[|events| - 4..|events| - 2] == [Sent("streamoff"), CamStopped]
    ensures Sent("land") in events <==> isFlying
    ensures isFlying ==> events[0] == Sent("land")
    ensures Sent("streamoff") in events <==> hasVideo
    ensures CamStopped in events <==> hasVideo
    ensures forall e :: e in events ==> e in {Sent("land"), Sent("streamoff"), CamStopped, StateStopped, CommandStopped}
  {
    var landing := if isFlying then [Sent("land")] else [];
    var stream := if hasVideo then [Sent("streamoff"), CamStopped] else [];
    var stops := [StateStopped, CommandStopped];
    assert forall e :: e in landing + stream + stops <==> e in landing || e in stream || e in stops;
    landing + stream + stops
  }

  class Tello {
    /** Whether the video stream was asked for at construction. */
    const hasVideo: bool
    /** The drone's reply to the discrete command that ends a log (None: timed out). */
    const respond: seq<Event> -> Option<string>
    /** Set by an acknowledged takeoff, cleared by an acknowledged landing. */
    var isFlying: bool
    /** Every call made on the channels, in order. */
    var log: seq<Event>

    constructor (hasVideo: bool, respond: seq<Event> -> Option<string>)
      ensures this.hasVideo == hasVideo && this.respond == respond
      ensures !isFlying && log == []
    {
      this.hasVideo := hasVideo;
      this.respond := respond;
      isFlying := false;
      log := [];
    }

    /** A discrete command on the command channel, and its reply. */
    method SendCommand(command: string) returns (r: Option<string>)
      modifies this`log
      ensures log == old(log) + [Sent(command)]
      ensures r == respond(log)
    {
      log := log + [Sent(command)];
      r := respond(log);
    }

    /**
     * `connect`: start the command channel, then the telemetry channel;
     * with video, reset the stream with "streamoff" then "streamon" before
     * starting the camera.
     */
    method Connect()
      modifies this`log
      ensures log == old(log) + ConnectEvents(hasVideo)
    {
      log := log + [CommandStarted, StateStarted];
      if hasVideo {
        var _ := SendCommand("streamoff");
        var _ := SendCommand("streamon");
        log := log + [CamStarted];
      }
    }

    /**
     * `disconnect`: land first when flying, stop the stream and the camera
     * with video, then stop telemetry and last the command channel. The
     * flag is left as it was.
     */
    method Disconnect()
      modifies this`log
      ensures log == old(log) + DisconnectEvents(isFlying, hasVideo)
      ensures isFlying == old(isFlying)
    {
      if isFlying {
        var _ := SendCommand("land");
      }
      if hasVideo {
        var _ := SendCommand("streamoff");
        log := log + [CamStopped];
      }
      log := log + [StateStopped, CommandStopped];
    }

    /** `takeoff`: flying from an "ok" on; the reply comes back unchanged. */
    method Takeoff() returns (r: Option<string>)
      modifies this`log, this`isFlying
      ensures log == old(log) + [Sent("takeoff")]
      ensures r == respond(log)
      ensures isFlying == if r == Some("ok") then true else old(isFlying)
    {
      r := SendCommand("takeoff");
      if r == Some("ok") {
        isFlying := true;
      }
    }

    /** `land`: not flying from an "ok" on; the reply comes back unchanged. */
    method Land() returns (r: Option<string>)
      modifies this`log, this`isFlying
      ensures log == old(log) + [Sent("land")]
      ensures r == respond(log)
      ensures isFlying == if r == Some("ok") then false else old(isFlying)
    {
      r := SendCommand("land");
      if r == Some("ok") {
        isFlying := false;
      }
    }

    /** `keep_alive`: a "battery?" query whose reply is dropped. */
    method KeepAlive()
      modifies this`log
      ensures log == old(log) + [Sent("battery?")]
    {
      var _ := SendCommand("battery?");
    }

    /** `get_battery`: a "battery?" query whose reply is returned. */
    method GetBattery() returns (r: Option<string>)
      modifies this`log
      ensures log == old(log) + [Sent("battery?")]
      ensures r == respond(log)
    {
      r := SendCommand("battery?");
    }

    /** `up` ... `ccw`: one motion command; the reply comes back unchanged. */
    method Move(m: Motion, n: int) returns (r: Option<string>)
      modifies this`log
      ensures log == old(log) + [Sent(MotionCommand(m, n))]
      ensures r == respond(log)
    {
      r := SendCommand(MotionCommand(m, n));
    }

    /** `rc`: the four velocities, unchanged, to the RC sender. */
    method Rc(lr: int, fb: int, ud: int, yaw: int)
      modifies this`log
      ensures log == old(log) + [RcRequested(lr, fb, ud, yaw)]
    {
      log := log + [RcRequested(lr, fb, ud, yaw)];
    }

    /** `get_frame`: the camera's latest frame, or None without video. */
    function GetFrame(camLatest: Option<Image>): (r: Option<Image>)
      ensures !hasVideo ==> r == None
      ensures hasVideo ==> r == camLatest
    {
      if hasVideo then camLatest else None
    }

    /** `get_states`: the raw telemetry string, or None before any arrived. */
    function GetStates(telemetry: Option<string>): (r: Result<Option<string>, Fault>)
      ensures r == Ok(telemetry)
    {
      TelloState.Get(telemetry, None)
    }

    /** `get_state(field)`: the telemetry lookup of `field`. */
    function GetState(field: string, telemetry: Option<string>): (r: Result<Option<string>, Fault>)
      ensures telemetry.None? ==> r == Ok(None)
      ensures telemetry.Some? ==> r == TelloState.StateField(telemetry.value, field)
    {
      TelloState.Get(telemetry, Some(field))
    }

    /**
     * The accessors `get_flight_time` ... `get_yaw`: the lookup of the
     * accessor's key; in a broadcast, the value of its first entry.
     */
    function GetReading(reading: Reading, telemetry: Option<string>): (r: Result<Option<string>, Fault>)
      ensures telemetry.None? ==> r == Ok(None)
      ensures telemetry.Some? ==> r == TelloState.StateField(telemetry.value, ReadingKey(reading))
    {
      GetState(ReadingKey(reading), telemetry)
    }
  }
}
