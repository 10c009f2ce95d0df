/** A lighting request on its way from the daemon to the privileged helper (five
    strings) and from there to the device (a 64-byte report). */
module AuraWire {
  import opened Common
  import opened Text
  import opened Lighting

  // ---------------------------------------------------------------- daemon to helper

  /** The five strings that cross the bus. */
  datatype Wire = Wire(mode: string, primary: string, secondary: string, speed: string, direction: string)

  function ModeText(m: Mode): Option<string> {
    match m
    case Static => Some("static")
    case Breathe => Some("breathe")
    case RainbowCycle => Some("rainbow-cycle")
    case RainbowWave => Some("rainbow-wave")
    case Pulse => Some("pulse")
    case _ => None
  }

  function ColourText(c: Option<Rgb>): string {
    if c.Some? then ToHex(c.value) else ""
  }

  function SpeedText(s: Option<Speed>): Option<string> {
    match s
    case None => Some("")
    case Some(Slow) => Some("slow")
    case Some(Medium) => Some("medium")
    case Some(Fast) => Some("fast")
    case Some(OtherSpeed(_)) => None
  }

  function DirectionText(d: Option<Direction>): Option<string> {
    match d
    case None => Some("")
    case Some(Right) => Some("right")
    case Some(Left) => Some("left")
    case Some(Up) => Some("up")
    case Some(Down) => Some("down")
    case Some(_) => None
  }

  /** The daemon's side. */
  function ToWire(r: Request): Result<Wire, LightingError> {
    if ModeText(r.mode).None? || SpeedText(r.speed).None? || DirectionText(r.direction).None? then Err(NoMapping)
    else
      Ok(Wire(ModeText(r.mode).value, ColourText(r.primary), ColourText(r.secondary),
              SpeedText(r.speed).value, DirectionText(r.direction).value))
  }

  function ParseMode(s: string): Result<Mode, LightingError> {
    if s == "static" then Ok(Static)
    else if s == "breathe" then Ok(Breathe)
    else if s == "rainbow-cycle" then Ok(RainbowCycle)
    else if s == "rainbow-wave" then Ok(RainbowWave)
    else if s == "pulse" then Ok(Pulse)
    else Err(BadModeText)
  }

  function ParseColour(s: string): Result<Option<Rgb>, LightingError> {
    if s == "" then Ok(None)
    else if Utf8Length(s) != 7 || s[0] != '#' then Err(BadColourText)
    else
      match ParseHex(s)
      case Err(e) => Err(e)
      case Ok(c) => Ok(Some(c))
  }

  function ParseSpeed(s: string): Result<Option<Speed>, LightingError> {
    if s == "" then Ok(None)
    else if s == "slow" then Ok(Some(Slow))
    else if s == "medium" then Ok(Some(Medium))
    else if s == "fast" then Ok(Some(Fast))
    else Err(BadSpeedText)
  }

  function ParseDirection(s: string): Result<Option<Direction>, LightingError> {
    if s == "" then Ok(None)
    else if s == "right" then Ok(Some(Right))
    else if s == "left" then Ok(Some(Left))
    else if s == "up" then Ok(Some(Up))
    else if s == "down" then Ok(Some(Down))
    else Err(BadDirectionText)
  }

  /** The helper's side. */
  function ParseNativeAuraRequest(w: Wire): Result<Request, LightingError> {
    match ParseMode(w.mode)
    case Err(e) => Err(e)
    case Ok(mode) =>
      match ParseSpeed(w.speed)
      case Err(e) => Err(e)
      case Ok(speed) =>
        match ParseDirection(w.direction)
        case Err(e) => Err(e)
        case Ok(direction) =>
          match ParseColour(w.primary)
          case Err(e) => Err(e)
          case Ok(primary) =>
            match ParseColour(w.secondary)
            case Err(e) => Err(e)
            case Ok(secondary) =>
              var r := Request(mode, primary, secondary, None, speed, direction, None, false);
              if Validate(r, G615JM).Ok? then Ok(r) else Err(Validate(r, G615JM).error)
  }

  /** Shortening a text takes at least one byte for each character. */
  lemma {:induction false} Utf8Prefix(s: string, n: nat)
    requires n <= |s|
    ensures Utf8Length(s[..n]) + (|s| - n) <= Utf8Length(s)
  {
    if n == 0 {
      assert s[..0] == "";
    } else {
      assert s[..n][1..] == s[1..][..n - 1];
      Utf8Prefix(s[1..], n - 1);
    }
  }

  lemma {:induction false} TrimEndIsPrefix(s: string)
    ensures |TrimEnd(s)| <= |s| && TrimEnd(s) == s[..|TrimEnd(s)|]
    ensures s != [] && IsSpace(s[|s| - 1]) ==> |TrimEnd(s)| < |s|
  {
    if s != [] && IsSpace(s[|s| - 1]) {
      TrimEndIsPrefix(s[..|s| - 1]);
      assert s[..|s| - 1][..|TrimEnd(s)|] == s[..|TrimEnd(s)|];
    }
  }

  /** A text of seven bytes that ends in white space is no colour. */
  lemma BlankEndFails(s: string)
    requires Utf8Length(s) == 7 && s[0] == '#' && IsSpace(s[|s| - 1])
    ensures ParseHex(s).Err?
  {
    TrimEndIsPrefix(s);
    var t := TrimEnd(s);
    Utf8Prefix(s, |t|);
    if t != [] {
      assert t[0] == '#' && Trim(s) == t;
      assert Utf8Length(t) == 1 + Utf8Length(t[1..]);
    } else {
      assert Trim(s) == "";
    }
  }

  /** Main result: the helper reads a colour from exactly the texts `#RRGGBB`. */
  lemma ColoursAccepted(s: string)
    ensures ParseColour(s).Ok? <==> s == "" || (|s| == 7 && s[0] == '#' && AllHex(s[1..]))
    ensures ParseColour(s).Ok? && s != "" ==>
      ParseColour(s) == Ok(Some(Rgb(HexByte(s[1], s[2]), HexByte(s[3], s[4]), HexByte(s[5], s[6]))))
  {
    if s != "" && s[0] == '#' {
      assert Utf8Length(s) == 1 + Utf8Length(s[1..]);
      if IsSpace(s[|s| - 1]) {
        if Utf8Length(s) == 7 { BlankEndFails(s); }
        if |s| == 7 { assert s[1..][5] == s[6] && HexValue(s[6]).None?; }
      } else {
        assert Trim(s) == s;
      }
    }
  }

  lemma ColourSurvives(c: Option<Rgb>)
    ensures ParseColour(ColourText(c)) == Ok(c)
  {
    if c.Some? { HexRoundTrip(c.value); }
  }

  lemma TextsSurvive(r: Request)
    ensures ModeText(r.mode).Some? ==> ParseMode(ModeText(r.mode).value) == Ok(r.mode)
    ensures SpeedText(r.speed).Some? ==> ParseSpeed(SpeedText(r.speed).value) == Ok(r.speed)
    ensures DirectionText(r.direction).Some? ==> ParseDirection(DirectionText(r.direction).value) == Ok(r.direction)
  {
  }

  /** The words that cross the bus. */
  lemma WireWords(r: Request)
    requires ToWire(r).Ok?
    ensures var word := ToWire(r).value.mode;
      && (word == "static" <==> r.mode == Static) && (word == "breathe" <==> r.mode == Breathe)
      && (word == "rainbow-cycle" <==> r.mode == RainbowCycle) && (word == "rainbow-wave" <==> r.mode == RainbowWave)
      && (word == "pulse" <==> r.mode == Pulse)
    ensures var word := ToWire(r).value.speed;
      && (word == "" <==> r.speed == None) && (word == "slow" <==> r.speed == Some(Slow))
      && (word == "medium" <==> r.speed == Some(Medium)) && (word == "fast" <==> r.speed == Some(Fast))
    ensures var word := ToWire(r).value.direction;
      && (word == "" <==> r.direction == None) && (word == "right" <==> r.direction == Some(Right))
      && (word == "left" <==> r.direction == Some(Left)) && (word == "up" <==> r.direction == Some(Up))
      && (word == "down" <==> r.direction == Some(Down))
  {
    TextsSurvive(r);
  }

  lemma ValidParts(r: Request, caps: Caps)
    requires Validate(r, caps).Ok?
    ensures ListContains(caps.modes, r.mode)
    ensures ValidateBrightness(r, caps).Ok? && ValidateMotion(r, caps).Ok? && ValidateZone(r, caps).Ok?
  {
  }

  predicate IsMapped(m: Mode) {
    m.Static? || m.Breathe? || m.RainbowCycle? || m.RainbowWave? || m.Pulse?
  }

  lemma OneOf<T>(s: seq<T>, x: T)
    requires x in s && |s| <= 5
    ensures (|s| > 0 && x == s[0]) || (|s| > 1 && x == s[1]) || (|s| > 2 && x == s[2])
            || (|s| > 3 && x == s[3]) || (|s| > 4 && x == s[4])
  {
  }

  lemma ListedIsMapped(modes: seq<Mode>, m: Mode)
    requires forall x :: x in modes ==> IsMapped(x)
    requires ListContains(modes, m) && !m.OtherMode?
    ensures IsMapped(m)
  {
    forall i | 0 <= i < |modes| ensures !modes[i].OtherMode? {
      assert modes[i] in modes;
    }
    ListContainsBuiltin(modes, m);
  }

  lemma DeviceModesAreMapped()
    ensures forall m :: m in G615JM.modes ==> IsMapped(m)
  {
  }

  lemma ValidModeIsMapped(m: Mode)
    requires ListContains(G615JM.modes, m) && !m.OtherMode?
    ensures IsMapped(m)
  {
    DeviceModesAreMapped();
    ListedIsMapped(G615JM.modes, m);
  }

  predicate IsMappedMotion(r: Request) {
    (r.speed.Some? ==> !r.speed.value.OtherSpeed?)
    && (r.direction.Some? ==>
          r.direction.value.Right? || r.direction.value.Left? || r.direction.value.Up? || r.direction.value.Down?)
  }

  lemma ValidMotionIsMapped(r: Request)
    requires ValidateMotion(r, G615JM).Ok?
    ensures IsMappedMotion(r)
  {
    if r.speed.Some? { OneOf(G615JM.speeds, r.speed.value); }
    if r.direction.Some? { OneOf(G615JM.directions, r.direction.value); }
  }

  /** What validation against the verified device leaves open. */
  lemma ValidatedShape(r: Request)
    requires Validate(r, G615JM).Ok? && !r.mode.OtherMode?
    ensures IsMapped(r.mode) && IsMappedMotion(r)
    ensures r.brightness.None? && r.zone.None? && !r.applyToAll
  {
    ValidParts(r, G615JM);
    ValidModeIsMapped(r.mode);
    ValidMotionIsMapped(r);
  }

  /** The helper accepts what it can read exactly when it is valid for the device. */
  lemma ParsesTo(w: Wire, r: Request)
    requires ParseMode(w.mode) == Ok(r.mode) && ParseSpeed(w.speed) == Ok(r.speed)
    requires ParseDirection(w.direction) == Ok(r.direction)
    requires ParseColour(w.primary) == Ok(r.primary) && ParseColour(w.secondary) == Ok(r.secondary)
    requires r.brightness.None? && r.zone.None? && !r.applyToAll
    ensures ParseNativeAuraRequest(w) == if Validate(r, G615JM).Ok? then Ok(r) else Err(Validate(r, G615JM).error)
  {
  }

  lemma ParsedIsValid(w: Wire, r: Request)
    requires ParseNativeAuraRequest(w) == Ok(r)
    ensures Validate(r, G615JM).Ok? && !r.mode.OtherMode?
  {
  }

  lemma MappedHasWire(r: Request)
    requires IsMapped(r.mode) && IsMappedMotion(r)
    ensures ModeText(r.mode).Some? && SpeedText(r.speed).Some? && DirectionText(r.direction).Some?
  {
  }

  /** Main result: a request arrives at the helper exactly as it was when, and only
      when, the device can be asked for it. */
  lemma WireRoundTrip(r: Request)
    ensures ToWire(r).Ok? && ParseNativeAuraRequest(ToWire(r).value) == Ok(r)
            <==> ValidForDevice(r)
  {
    hide Validate, ValidForDevice, ParseNativeAuraRequest, ParseMode, ParseSpeed, ParseDirection, ParseColour;
    hide ModeText, SpeedText, DirectionText, ColourText;
    DeviceAccepts(r);
    if Validate(r, G615JM).Ok? && !r.mode.OtherMode? {
      ValidatedShape(r);
      MappedHasWire(r);
      ColourSurvives(r.primary);
      ColourSurvives(r.secondary);
      TextsSurvive(r);
      ParsesTo(ToWire(r).value, r);
    } else if ToWire(r).Ok? && ParseNativeAuraRequest(ToWire(r).value) == Ok(r) {
      ParsedIsValid(ToWire(r).value, r);
    }
  }

  // ---------------------------------------------------------------- helper to device

  const REPORT_BYTES := 64
  const REPORT_ID: u8 := 0x5d
  const EFFECT_COMMAND: u8 := 0xb3
  const APPLY_COMMAND: u8 := 0xb4
  const SET_COMMAND: u8 := 0xb5

  /** What the device is told: everything a request leaves open has its default. */
  datatype Shown = Shown(mode: Mode, primary: Rgb, secondary: Rgb, speed: Speed, direction: Direction)

  ghost function ShownBy(r: Request): Shown {
    Shown(r.mode,
          if r.primary.Some? then r.primary.value else Rgb(0, 0, 0),
          if r.secondary.Some? then r.secondary.value else Rgb(0, 0, 0),
          if r.speed.Some? then r.speed.value else Medium,
          if r.direction.Some? then r.direction.value else Right)
  }

  function ModeByte(m: Mode): Option<u8> {
    match m
    case Static => Some(0x00)
    case Breathe => Some(0x01)
    case RainbowCycle => Some(0x02)
    case RainbowWave => Some(0x03)
    case Pulse => Some(0x0a)
    case _ => None
  }

  function SpeedByte(s: Speed): Option<u8> {
    match s
    case Slow => Some(0xe1)
    case Medium => Some(0xeb)
    case Fast => Some(0xf5)
    case OtherSpeed(_) => None
  }

  function DirectionByte(d: Direction): Option<u8> {
    match d
    case Right => Some(0)
    case Left => Some(1)
    case Up => Some(2)
    case Down => Some(3)
    case _ => None
  }

  /** Reading an effect report: the inverse of encoding, used to say what it holds. */
  ghost function DecodeEffect(b: seq<u8>): Option<Shown> {
    if |b| != 64 || b[0] != 0x5d || b[1] != 0xb3 then None
    else
      var mode := match b[3] case 0 => Some(Static) case 1 => Some(Breathe) case 2 => Some(RainbowCycle)
                             case 3 => Some(RainbowWave) case 0x0a => Some(Pulse) case _ => None;
      var speed := match b[7] case 0xe1 => Some(Slow) case 0xeb => Some(Medium) case 0xf5 => Some(Fast) case _ => None;
      var direction := match b[8] case 0 => Some(Right) case 1 => Some(Left) case 2 => Some(Up)
                                  case 3 => Some(Down) case _ => None;
      if mode.None? || speed.None? || direction.None? then None
      else Some(Shown(mode.value, Rgb(b[4], b[5], b[6]), Rgb(b[10], b[11], b[12]), speed.value, direction.value))
  }

  /** Bytes of an effect report that carry nothing. */
  predicate Reserved(i: nat) {
    i == 2 || i == 9 || 13 <= i < 64
  }

  ghost predicate ReservedZero(b: seq<u8>) {
    |b| == 64 && forall i: nat :: i < 64 && Reserved(i) ==> b[i] == 0
  }

  /** A report that is just a command. */
  ghost predicate IsCommand(b: seq<u8>, command: u8) {
    |b| == 64 && b[0] == 0x5d && b[1] == command && forall i :: 2 <= i < 64 ==> b[i] == 0
  }

  datatype Reports = Reports(effect: seq<u8>, set_: seq<u8>, apply: seq<u8>)

  /** The effect report with its fields filled in. */
  ghost predicate IsEffect(b: seq<u8>, mode: u8, primary: Rgb, secondary: Rgb, speed: u8, direction: u8) {
    && ReservedZero(b)
    && b[0] == REPORT_ID && b[1] == EFFECT_COMMAND && b[3] == mode && b[7] == speed && b[8] == direction
    && Rgb(b[4], b[5], b[6]) == primary && Rgb(b[10], b[11], b[12]) == secondary
  }

  lemma FieldsInPlace(b: seq<u8>, mode: u8, primary: Rgb, secondary: Rgb, speed: u8, direction: u8)
    requires |b| == REPORT_BYTES && b[2] == 0 && b[9] == 0 && forall i :: 13 <= i < REPORT_BYTES ==> b[i] == 0
    requires b[0] == REPORT_ID && b[1] == EFFECT_COMMAND && b[3] == mode && b[7] == speed && b[8] == direction
    requires b[4] == primary.r && b[5] == primary.g && b[6] == primary.b
    requires b[10] == secondary.r && b[11] == secondary.g && b[12] == secondary.b
    ensures IsEffect(b, mode, primary, secondary, speed, direction)
  {
  }

  method FillEffect(mode: u8, primary: Rgb, secondary: Rgb, speed: u8, direction: u8) returns (b: seq<u8>)
    ensures IsEffect(b, mode, primary, secondary, speed, direction)
  {
    hide IsEffect, ReservedZero;
    var effect := new u8[REPORT_BYTES](_ => 0);
    effect[0] := REPORT_ID;
    effect[1] := EFFECT_COMMAND;
    effect[2] := 0;
    effect[3] := mode;
    effect[4], effect[5], effect[6] := primary.r, primary.g, primary.b;
    effect[7] := speed;
    effect[8] := direction;
    effect[10], effect[11], effect[12] := secondary.r, secondary.g, secondary.b;
    b := effect[..];
    FieldsInPlace(b, mode, primary, secondary, speed, direction);
  }

  method FillCommand(command: u8) returns (b: seq<u8>)
    ensures IsCommand(b, command)
  {
    var report := new u8[REPORT_BYTES](_ => 0);
    report[0] := REPORT_ID;
    report[1] := command;
    b := report[..];
  }

  /** Decoding recovers what was filled in. */
  lemma EffectDecodes(b: seq<u8>, s: Shown)
    requires ModeByte(s.mode).Some? && SpeedByte(s.speed).Some? && DirectionByte(s.direction).Some?
    requires IsEffect(b, ModeByte(s.mode).value, s.primary, s.secondary,
                      SpeedByte(s.speed).value, DirectionByte(s.direction).value)
    ensures DecodeEffect(b) == Some(s) && ReservedZero(b)
  {
  }

  lemma MappedHasBytes(m: Mode, speed: Option<Speed>, direction: Option<Direction>)
    requires IsMapped(m) && (speed.Some? ==> !speed.value.OtherSpeed?)
    requires direction.Some? ==> direction.value in {Right, Left, Up, Down}
    ensures ModeByte(m).Some? && SpeedByte(speed.GetOr(Medium)).Some?
    ensures DirectionByte(direction.GetOr(Right)).Some?
  {
  }

  lemma ValidHasBytes(r: Request)
    requires Validate(r, G615JM).Ok? && !r.mode.OtherMode?
    ensures ModeByte(r.mode).Some? && SpeedByte(r.speed.GetOr(Medium)).Some?
    ensures DirectionByte(r.direction.GetOr(Right)).Some?
  {
    ValidatedShape(r);
    MappedHasBytes(r.mode, r.speed, r.direction);
  }

  /** Encodes the three reports of a request; fails exactly for requests that the device
      cannot be asked for, with the fault that validation reports first. */
  method EncodeG615jmEffect(r: Request) returns (e: Result<Reports, LightingError>)
    ensures e.Ok? <==> ValidForDevice(r)
    ensures Validate(r, G615JM).Err? ==> e == Err(Validate(r, G615JM).error)
    ensures Validate(r, G615JM).Ok? && r.mode.OtherMode? ==> e == Err(NoMapping)
    ensures e.Ok? ==> DecodeEffect(e.value.effect) == Some(ShownBy(r)) && ReservedZero(e.value.effect)
    ensures e.Ok? ==> IsCommand(e.value.set_, 0xb5) && IsCommand(e.value.apply, 0xb4)
  {
    hide Validate, IsEffect, IsCommand, DecodeEffect, ReservedZero, ValidForDevice;
    DeviceAccepts(r);
    var valid := Validate(r, G615JM);
    if valid.Err? {
      return Err(valid.error);
    }
    if !r.mode.OtherMode? { ValidHasBytes(r); }
    var mode := ModeByte(r.mode);
    if mode.None? {
      return Err(NoMapping);
    }
    var primary := r.primary.GetOr(BLACK);
    var secondary := r.secondary.GetOr(BLACK);
    var speed := SpeedByte(r.speed.GetOr(Medium));
    if speed.None? {
      return Err(NoMapping);
    }
    var direction := DirectionByte(r.direction.GetOr(Right));
    if direction.None? {
      return Err(NoMapping);
    }
    var effect := FillEffect(mode.value, primary, secondary, speed.value, direction.value);
    var set_ := FillCommand(SET_COMMAND);
    var apply := FillCommand(APPLY_COMMAND);
    EffectDecodes(effect, ShownBy(r));
    e := Ok(Reports(effect, set_, apply));
  }

  /** Main result: an effect report determines what is shown, and what is shown
      determines the report: two well-formed effect reports are the same bytes
      exactly when they show the same. */
  lemma ReportIsWhatIsShown(a: seq<u8>, b: seq<u8>)
    requires DecodeEffect(a).Some? && ReservedZero(a) && DecodeEffect(b).Some? && ReservedZero(b)
    ensures a == b <==> DecodeEffect(a) == DecodeEffect(b)
  {
    if DecodeEffect(a) == DecodeEffect(b) {
      forall i | 0 <= i < REPORT_BYTES ensures a[i] == b[i] {
        assert Reserved(i) || i in {0, 1, 3, 4, 5, 6, 7, 8, 10, 11, 12};
      }
    }
  }

  /** The part of a request that crosses the bus. */
  function Carried(r: Request): Request {
    r.(brightness := None, zone := None, applyToAll := false)
  }

  /** The helper's answer to what the daemon sends for a request. */
  lemma WireAnswer(r: Request)
    requires ToWire(r).Ok?
    ensures !r.mode.OtherMode?
    ensures ParseNativeAuraRequest(ToWire(r).value) ==
      var valid := Validate(Carried(r), G615JM); if valid.Ok? then Ok(Carried(r)) else Err(valid.error)
  {
    ColourSurvives(r.primary);
    ColourSurvives(r.secondary);
    TextsSurvive(r);
    ParsesTo(ToWire(r).value, Carried(r));
  }

  lemma DeviceListsBuiltin()
    ensures BuiltinCaps(G615JM)
  {
  }

  lemma ValidCrosses(r: Request)
    requires Validate(Carried(r), G615JM).Ok? && !r.mode.OtherMode?
    ensures ToWire(r).Ok?
  {
    ValidatedShape(Carried(r));
    MappedHasWire(Carried(r));
  }

  /** Main result: from the daemon's request to the bytes.  The reports are built
      exactly when the device can be asked for the part that crosses the bus, and then
      show exactly what was asked for; otherwise the request is refused by the daemon
      as unmapped or by the helper with its first fault. */
  method SendEffect(r: Request) returns (e: Result<Reports, LightingError>)
    ensures e.Ok? <==> ValidForDevice(r.(brightness := None, zone := None, applyToAll := false))
    ensures e.Ok? ==> DecodeEffect(e.value.effect) == Some(ShownBy(r)) && ReservedZero(e.value.effect)
    ensures e.Ok? ==> IsCommand(e.value.set_, 0xb5) && IsCommand(e.value.apply, 0xb4)
    ensures ToWire(r).Err? ==> e == Err(NoMapping)
    ensures ToWire(r).Ok? && e.Err? ==>
      Some(e.error) == FirstFault(r.(brightness := None, zone := None, applyToAll := false), G615JM)
  {
    hide Validate, ParseNativeAuraRequest, ValidForDevice, FirstFault;
    DeviceAccepts(Carried(r));
    DeviceListsBuiltin();
    var wire := ToWire(r);
    if wire.Err? {
      if Validate(Carried(r), G615JM).Ok? && !r.mode.OtherMode? { ValidCrosses(r); }
      return Err(wire.error);
    }
    WireAnswer(r);
    ValidateReportsFirst(Carried(r), G615JM);
    var parsed := ParseNativeAuraRequest(wire.value);
    if parsed.Err? {
      return Err(parsed.error);
    }
    e := EncodeG615jmEffect(parsed.value);
  }
}
