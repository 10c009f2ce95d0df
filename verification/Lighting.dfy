/** Lighting requests, their validation against capabilities, and RGB colours as text. */
module Lighting {
  import opened Common
  import opened Text

  datatype Mode = Off | Static | Breathe | RainbowCycle | RainbowWave | Rainbow | Strobe | Pulse | Wave
    | OtherMode(name: string)

  datatype Speed = Slow | Medium | Fast | OtherSpeed(name: string)

  datatype Direction = Right | Left | Up | Down | Clockwise | CounterClockwise | OtherDirection(name: string)

  datatype Zone = Zone(name: string)

  datatype Rgb = Rgb(r: u8, g: u8, b: u8)

  const BLACK := Rgb(0, 0, 0)

  datatype Request = Request(
    mode: Mode,
    primary: Option<Rgb>,
    secondary: Option<Rgb>,
    brightness: Option<u32>,
    speed: Option<Speed>,
    direction: Option<Direction>,
    zone: Option<Zone>,
    applyToAll: bool)

  datatype Caps = Caps(
    writable: bool,
    supportsRgb: bool,
    supportsBrightness: bool,
    maxBrightness: Option<u32>,
    supportsZones: bool,
    modes: seq<Mode>,
    speeds: seq<Speed>,
    directions: seq<Direction>,
    zones: seq<Zone>,
    needPrimary: seq<Mode>,
    allowSecondary: seq<Mode>,
    allowSpeed: seq<Mode>,
    allowDirection: seq<Mode>)

  const G615JM := Caps(
    true, true, false, None, false,
    [Static, Breathe, RainbowCycle, RainbowWave, Pulse],
    [Slow, Medium, Fast],
    [Right, Left, Up, Down],
    [],
    [Static, Breathe, Pulse],
    [Breathe],
    [Breathe, RainbowCycle, RainbowWave, Pulse],
    [RainbowWave])

  datatype LightingError =
    | NotWritable
    | ModeUnsupported
    | PrimaryRequired
    | RgbUnsupported
    | SecondaryUnsupported
    | BrightnessUnsupported
    | BrightnessTooHigh
    | SpeedUnsupported
    | DirectionUnsupported
    | ZoneUnsupported
    | ApplyToAllUnsupported
    | NoMapping
    | BadModeText
    | BadSpeedText
    | BadDirectionText
    | BadColourText

  // ---------------------------------------------------------------- modes as words

  function ModeLabel(m: Mode): string {
    match m
    case Off => "Off"
    case Static => "Static"
    case Breathe => "Breathe"
    case RainbowCycle => "Rainbow Cycle"
    case RainbowWave => "Rainbow Wave"
    case Rainbow => "Rainbow"
    case Strobe => "Strobe"
    case Pulse => "Pulse"
    case Wave => "Wave"
    case OtherMode(name) => name
  }

  function Lower(c: char): char {
    if 'A' <= c <= 'Z' then (c as int + 32) as char else c
  }

  function LowerAll(s: string): string {
    if s == [] then [] else [Lower(s[0])] + LowerAll(s[1..])
  }

  predicate IsAlphanumeric(c: char) {
    '0' <= c <= '9' || 'a' <= c <= 'z' || 'A' <= c <= 'Z'
  }

  function KeepAlphanumeric(s: string): string {
    if s == [] then [] else (if IsAlphanumeric(s[0]) then [s[0]] else []) + KeepAlphanumeric(s[1..])
  }

  function NormalizeWord(s: string): string {
    KeepAlphanumeric(Trim(LowerAll(s)))
  }

  predicate SameUserMode(a: Mode, b: Mode) {
    NormalizeWord(ModeLabel(a)) == NormalizeWord(ModeLabel(b))
  }

  predicate ListContains(modes: seq<Mode>, m: Mode) {
    exists i :: 0 <= i < |modes| && SameUserMode(modes[i], m)
  }

  // ---------------------------------------------------------------- validation

  function ValidateColours(r: Request, caps: Caps): Result<(), LightingError> {
    if ListContains(caps.needPrimary, r.mode) && r.primary.None? then Err(PrimaryRequired)
    else if (r.primary.Some? || r.secondary.Some?) && !caps.supportsRgb then Err(RgbUnsupported)
    else if r.secondary.Some? && !ListContains(caps.allowSecondary, r.mode) then Err(SecondaryUnsupported)
    else Ok(())
  }

  function ValidateBrightness(r: Request, caps: Caps): Result<(), LightingError> {
    if r.brightness.None? then Ok(())
    else if !caps.supportsBrightness then Err(BrightnessUnsupported)
    else if caps.maxBrightness.Some? && r.brightness.value > caps.maxBrightness.value then Err(BrightnessTooHigh)
    else Ok(())
  }

  function ValidateMotion(r: Request, caps: Caps): Result<(), LightingError> {
    if r.speed.Some? && !(ListContains(caps.allowSpeed, r.mode) && r.speed.value in caps.speeds)
    then Err(SpeedUnsupported)
    else if r.direction.Some? && !(ListContains(caps.allowDirection, r.mode) && r.direction.value in caps.directions)
    then Err(DirectionUnsupported)
    else Ok(())
  }

  function ValidateZone(r: Request, caps: Caps): Result<(), LightingError> {
    if r.zone.Some? && !(caps.supportsZones && r.zone.value in caps.zones) then Err(ZoneUnsupported)
    else if r.applyToAll && !caps.supportsZones then Err(ApplyToAllUnsupported)
    else Ok(())
  }

  function Validate(r: Request, caps: Caps): Result<(), LightingError> {
    if !caps.writable then Err(NotWritable)
    else if !ListContains(caps.modes, r.mode) then Err(ModeUnsupported)
    else if ValidateColours(r, caps).Err? then ValidateColours(r, caps)
    else if ValidateBrightness(r, caps).Err? then ValidateBrightness(r, caps)
    else if ValidateMotion(r, caps).Err? then ValidateMotion(r, caps)
    else ValidateZone(r, caps)
  }

  lemma {:induction false} KeepAppends(a: string, b: string)
    ensures KeepAlphanumeric(a + b) == KeepAlphanumeric(a) + KeepAlphanumeric(b)
  {
    if a == [] {
      assert a + b == b;
    } else {
      assert (a + b)[1..] == a[1..] + b;
      KeepAppends(a[1..], b);
      var first := if IsAlphanumeric(a[0]) then [a[0]] else [];
      var rest, more := KeepAlphanumeric(a[1..]), KeepAlphanumeric(b);
      assert first + (rest + more) == (first + rest) + more;
    }
  }

  /** Trimming drops nothing that would be kept. */
  lemma {:induction false} TrimStartKeeps(s: string)
    ensures KeepAlphanumeric(TrimStart(s)) == KeepAlphanumeric(s)
  {
    if s != [] && IsSpace(s[0]) { TrimStartKeeps(s[1..]); }
  }

  lemma {:induction false} TrimEndKeeps(s: string)
    ensures KeepAlphanumeric(TrimEnd(s)) == KeepAlphanumeric(s)
  {
    if s != [] && IsSpace(s[|s| - 1]) {
      var front, last := s[..|s| - 1], s[|s| - 1..];
      TrimEndKeeps(front);
      KeepAppends(front, last);
      assert s == front + last;
    }
  }

  lemma NormalizeIsKeep(s: string)
    ensures NormalizeWord(s) == KeepAlphanumeric(LowerAll(s))
  {
    TrimEndKeeps(LowerAll(s));
    TrimStartKeeps(TrimEnd(LowerAll(s)));
  }

  /** A word of letters is its own normal form, in lower case. */
  lemma {:induction false} Spelled(s: string, word: string)
    requires |s| == |word| && forall i :: 0 <= i < |s| ==> Lower(s[i]) == word[i] && IsAlphanumeric(word[i])
    ensures KeepAlphanumeric(LowerAll(s)) == word
  {
    if s != [] {
      Spelled(s[1..], word[1..]);
      assert word == [word[0]] + word[1..];
    }
  }

  lemma {:induction false} LowerAppends(a: string, b: string)
    ensures LowerAll(a + b) == LowerAll(a) + LowerAll(b)
  {
    if a == [] {
      assert a + b == b;
    } else {
      assert (a + b)[1..] == a[1..] + b;
      LowerAppends(a[1..], b);
    }
  }

  lemma TwoWords(a: string, b: string, x: string, y: string)
    requires KeepAlphanumeric(LowerAll(a)) == x && KeepAlphanumeric(LowerAll(b)) == y
    ensures KeepAlphanumeric(LowerAll(a + (" " + b))) == x + y
  {
    LowerAppends(a, " " + b);
    LowerAppends(" ", b);
    KeepAppends(LowerAll(a), LowerAll(" " + b));
    KeepAppends(LowerAll(" "), LowerAll(b));
    assert LowerAll(" ") == " ";
    assert KeepAlphanumeric(" ") == "";
  }

  function BuiltinWord(m: Mode): string
    requires !m.OtherMode?
  {
    match m
    case Off => "off"
    case Static => "static"
    case Breathe => "breathe"
    case RainbowCycle => "rainbow" + "cycle"
    case RainbowWave => "rainbow" + "wave"
    case Rainbow => "rainbow"
    case Strobe => "strobe"
    case Pulse => "pulse"
    case Wave => "wave"
  }

  lemma CycleNormalizes()
    ensures KeepAlphanumeric(LowerAll("Rainbow Cycle")) == "rainbow" + "cycle"
  {
    var words := "Rainbow" + (" " + "Cycle");
    assert words == "Rainbow Cycle";
    Spelled("Rainbow", "rainbow");
    Spelled("Cycle", "cycle");
    TwoWords("Rainbow", "Cycle", "rainbow", "cycle");
  }

  lemma WaveNormalizes()
    ensures KeepAlphanumeric(LowerAll("Rainbow Wave")) == "rainbow" + "wave"
  {
    var words := "Rainbow" + (" " + "Wave");
    assert words == "Rainbow Wave";
    Spelled("Rainbow", "rainbow");
    Spelled("Wave", "wave");
    TwoWords("Rainbow", "Wave", "rainbow", "wave");
  }

  /** The labels that are one word. */
  lemma ShortLabels()
    ensures KeepAlphanumeric(LowerAll("Off")) == "off"
    ensures KeepAlphanumeric(LowerAll("Wave")) == "wave"
    ensures KeepAlphanumeric(LowerAll("Pulse")) == "pulse"
  {
    Spelled("Off", "off");
    Spelled("Wave", "wave");
    Spelled("Pulse", "pulse");
  }

  lemma LongLabels()
    ensures KeepAlphanumeric(LowerAll("Static")) == "static"
    ensures KeepAlphanumeric(LowerAll("Strobe")) == "strobe"
  {
    Spelled("Static", "static");
    Spelled("Strobe", "strobe");
  }

  lemma LongerLabels()
    ensures KeepAlphanumeric(LowerAll("Breathe")) == "breathe"
    ensures KeepAlphanumeric(LowerAll("Rainbow")) == "rainbow"
  {
    Spelled("Breathe", "breathe");
    Spelled("Rainbow", "rainbow");
  }

  lemma BuiltinNormalizes(m: Mode)
    requires !m.OtherMode?
    ensures NormalizeWord(ModeLabel(m)) == BuiltinWord(m)
  {
    NormalizeIsKeep(ModeLabel(m));
    ShortLabels();
    LongLabels();
    LongerLabels();
    CycleNormalizes();
    WaveNormalizes();
  }

  lemma WordsDiffer(a: Mode, b: Mode)
    requires !a.OtherMode? && !b.OtherMode? && a != b
    ensures BuiltinWord(a) != BuiltinWord(b)
  {
    var x, y := BuiltinWord(a), BuiltinWord(b);
    if |x| == |y| {
      assert x[0] != y[0] || x[1] != y[1] || x[2] != y[2];
    }
  }

  /** Built-in modes are told apart by their labels. */
  lemma SameModeIsEqual(a: Mode, b: Mode)
    requires !a.OtherMode? && !b.OtherMode?
    ensures SameUserMode(a, b) <==> a == b
  {
    BuiltinNormalizes(a);
    BuiltinNormalizes(b);
    if a != b { WordsDiffer(a, b); }
  }

  lemma ListContainsBuiltin(modes: seq<Mode>, m: Mode)
    requires !m.OtherMode? && forall i :: 0 <= i < |modes| ==> !modes[i].OtherMode?
    ensures ListContains(modes, m) <==> m in modes
  {
    forall i | 0 <= i < |modes| ensures SameUserMode(modes[i], m) <==> modes[i] == m {
      SameModeIsEqual(modes[i], m);
    }
  }

  // ---------------------------------------------------------------- which requests are valid

  ghost predicate Builtin(modes: seq<Mode>) {
    forall m :: m in modes ==> !m.OtherMode?
  }

  lemma InBuiltin(modes: seq<Mode>, m: Mode)
    requires Builtin(modes) && !m.OtherMode?
    ensures ListContains(modes, m) <==> m in modes
  {
    forall i | 0 <= i < |modes| ensures !modes[i].OtherMode? {
      assert modes[i] in modes;
    }
    ListContainsBuiltin(modes, m);
  }

  ghost predicate BuiltinCaps(caps: Caps) {
    Builtin(caps.modes) && Builtin(caps.needPrimary) && Builtin(caps.allowSecondary)
    && Builtin(caps.allowSpeed) && Builtin(caps.allowDirection)
  }

  /** The fault of a request that is reported when there are several. */
  ghost function FirstFault(r: Request, caps: Caps): Option<LightingError> {
    if !caps.writable then Some(NotWritable)
    else if r.mode !in caps.modes then Some(ModeUnsupported)
    else if r.mode in caps.needPrimary && r.primary.None? then Some(PrimaryRequired)
    else if r.primary.Some? && !caps.supportsRgb then Some(RgbUnsupported)
    else if r.secondary.Some? && !caps.supportsRgb then Some(RgbUnsupported)
    else if r.secondary.Some? && r.mode !in caps.allowSecondary then Some(SecondaryUnsupported)
    else if r.brightness.Some? && !caps.supportsBrightness then Some(BrightnessUnsupported)
    else if r.brightness.Some? && caps.maxBrightness.Some? && caps.maxBrightness.value < r.brightness.value
    then Some(BrightnessTooHigh)
    else if r.speed.Some? && (r.mode !in caps.allowSpeed || r.speed.value !in caps.speeds) then Some(SpeedUnsupported)
    else if r.direction.Some? && (r.mode !in caps.allowDirection || r.direction.value !in caps.directions)
    then Some(DirectionUnsupported)
    else if r.zone.Some? && (!caps.supportsZones || r.zone.value !in caps.zones) then Some(ZoneUnsupported)
    else if r.applyToAll && !caps.supportsZones then Some(ApplyToAllUnsupported)
    else None
  }

  /** Main result: for a built-in mode, against any capabilities that list built-in modes,
      a request is valid exactly when it has no fault, and otherwise the first is reported. */
  lemma ValidateReportsFirst(r: Request, caps: Caps)
    requires !r.mode.OtherMode? && BuiltinCaps(caps)
    ensures Validate(r, caps) == if FirstFault(r, caps).None? then Ok(()) else Err(FirstFault(r, caps).value)
  {
    hide ListContains, Builtin;
    InBuiltin(caps.modes, r.mode);
    InBuiltin(caps.needPrimary, r.mode);
    InBuiltin(caps.allowSecondary, r.mode);
    InBuiltin(caps.allowSpeed, r.mode);
    InBuiltin(caps.allowDirection, r.mode);
  }

  /** What the verified device can be asked for. */
  ghost predicate ValidForDevice(r: Request) {
    && (r.mode.Static? || r.mode.Breathe? || r.mode.RainbowCycle? || r.mode.RainbowWave? || r.mode.Pulse?)
    && (r.mode.Static? || r.mode.Breathe? || r.mode.Pulse? ==> r.primary.Some?)
    && (r.secondary.Some? ==> r.mode.Breathe?)
    && (r.speed.Some? ==> !r.mode.Static? && r.speed.value in {Slow, Medium, Fast})
    && (r.direction.Some? ==> r.mode.RainbowWave? && r.direction.value in {Right, Left, Up, Down})
    && r.brightness.None? && r.zone.None? && !r.applyToAll
  }

  /** Main result: these are exactly the requests with a built-in mode that validation
      against the device accepts. */
  lemma DeviceAccepts(r: Request)
    ensures Validate(r, G615JM).Ok? && !r.mode.OtherMode? <==> ValidForDevice(r)
  {
    hide Validate;
    if !r.mode.OtherMode? {
      assert Builtin(G615JM.modes) && Builtin(G615JM.needPrimary) && Builtin(G615JM.allowSecondary);
      assert Builtin(G615JM.allowSpeed) && Builtin(G615JM.allowDirection);
      ValidateReportsFirst(r, G615JM);
      DeviceModes(r.mode);
      DeviceMotions();
    }
  }

  lemma DeviceModes(m: Mode)
    ensures m in G615JM.modes <==> m in {Static, Breathe, RainbowCycle, RainbowWave, Pulse}
    ensures m in G615JM.needPrimary <==> m in {Static, Breathe, Pulse}
    ensures m in G615JM.allowSecondary <==> m == Breathe
    ensures m in G615JM.allowSpeed <==> m in {Breathe, RainbowCycle, RainbowWave, Pulse}
    ensures m in G615JM.allowDirection <==> m == RainbowWave
  {
  }

  lemma DeviceMotions()
    ensures forall s :: s in G615JM.speeds <==> s in {Slow, Medium, Fast}
    ensures forall d :: d in G615JM.directions <==> d in {Right, Left, Up, Down}
  {
  }

  /** A custom mode label can pass validation by imitating a built-in one. */
  lemma ImitationPasses()
    ensures ListContains(G615JM.modes, OtherMode("Static"))
  {
    assert SameUserMode(G615JM.modes[0], OtherMode("Static"));
  }

  // ---------------------------------------------------------------- colours as text

  function HexDigit(d: nat): char
    requires d < 16
  {
    if d < 10 then ('0' as int + d) as char else ('A' as int + d - 10) as char
  }

  function ToHex(c: Rgb): string {
    ['#', HexDigit(c.r / 16), HexDigit(c.r % 16), HexDigit(c.g / 16), HexDigit(c.g % 16),
     HexDigit(c.b / 16), HexDigit(c.b % 16)]
  }

  function HexValue(c: char): (v: Option<nat>)
    ensures v.Some? ==> v.value < 16
  {
    if '0' <= c <= '9' then Some(c as int - '0' as int)
    else if 'a' <= c <= 'f' then Some(c as int - 'a' as int + 10)
    else if 'A' <= c <= 'F' then Some(c as int - 'A' as int + 10)
    else None
  }

  predicate AllHex(s: string) {
    forall i :: 0 <= i < |s| ==> HexValue(s[i]).Some?
  }

  /** The number of bytes of a string in UTF-8. */
  function Utf8Length(s: string): (n: nat)
    ensures n >= |s|
    ensures AllHex(s) ==> n == |s|
  {
    if s == [] then 0
    else
      assert AllHex(s) ==> HexValue(s[0]).Some? && AllHex(s[1..]);
      (if s[0] < '\U{0080}' then 1 else if s[0] < '\U{0800}' then 2 else if s[0] < '\U{10000}' then 3 else 4)
      + Utf8Length(s[1..])
  }

  function HexByte(high: char, low: char): u8
    requires HexValue(high).Some? && HexValue(low).Some?
  {
    16 * HexValue(high).value + HexValue(low).value
  }

  function ParseHex(s: string): Result<Rgb, LightingError> {
    var trimmed := Trim(s);
    var v := if trimmed != [] && trimmed[0] == '#' then trimmed[1..] else trimmed;
    if Utf8Length(v) != 6 || !AllHex(v) then Err(BadColourText)
    else Ok(Rgb(HexByte(v[0], v[1]), HexByte(v[2], v[3]), HexByte(v[4], v[5])))
  }

  lemma HexDigitRoundTrip(d: nat)
    requires d < 16
    ensures HexValue(HexDigit(d)) == Some(d) && !IsSpace(HexDigit(d))
    ensures HexDigit(d) == "0123456789ABCDEF"[d]
  {
  }

  /** Which characters have which value, in either case. */
  lemma HexValues(c: char, d: nat)
    requires d < 16
    ensures HexValue(c) == Some(d) <==> c == "0123456789ABCDEF"[d] || c == "0123456789abcdef"[d]
  {
    if HexValue(c) == Some(d) && d >= 10 {
      assert d in {10, 11, 12, 13, 14, 15};
    }
  }

  lemma HexCharacters(c: Rgb)
    ensures var v := ToHex(c)[1..]; AllHex(v) && Utf8Length(v) == 6
  {
    var v := ToHex(c)[1..];
    forall i | 0 <= i < |v| ensures HexValue(v[i]).Some? {
      assert v[i] == HexDigit([c.r / 16, c.r % 16, c.g / 16, c.g % 16, c.b / 16, c.b % 16][i]);
    }
  }

  lemma HexBytes(x: u8)
    ensures HexByte(HexDigit(x / 16), HexDigit(x % 16)) == x
  {
    HexDigitRoundTrip(x / 16);
    HexDigitRoundTrip(x % 16);
  }

  /** Every colour survives being written as text. */
  lemma HexRoundTrip(c: Rgb)
    ensures Utf8Length(ToHex(c)) == 7 && Tight(ToHex(c)) && ParseHex(ToHex(c)) == Ok(c)
  {
    var s := ToHex(c);
    HexCharacters(c);
    HexDigitRoundTrip(c.b % 16);
    TrimLine(s);
    HexBytes(c.r);
    HexBytes(c.g);
    HexBytes(c.b);
  }
}
