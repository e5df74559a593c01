/**
 Console attributes in `internal/logs/color_windows.go`: splitting a 16-bit attribute into its parts,
 folding the codes of an SGR sequence (section 8.3.117 of ECMA-48) over them, and packing them again.
 */
module AnsiColor {
  import opened Basics

  const FG_BLUE: bv16 := 0x0001
  const FG_GREEN: bv16 := 0x0002
  const FG_RED: bv16 := 0x0004
  const FG_INTENSITY: bv16 := 0x0008
  const BG_BLUE: bv16 := 0x0010
  const BG_GREEN: bv16 := 0x0020
  const BG_RED: bv16 := 0x0040
  const BG_INTENSITY: bv16 := 0x0080
  const UNDERSCORE: bv16 := 0x8000

  const FG_COLORS: bv16 := 0x0007
  const BG_COLORS: bv16 := 0x0070
  const COLOR_BITS: bv16 := 0x00ff  // the colours with their intensities
  const OTHERS: bv16 := 0x7f00  // what the masks and the underscore leave

  datatype TextAttributes = TextAttributes(
    foreground: bv16,
    background: bv16,
    fgIntensity: bv16,
    bgIntensity: bv16,
    underscore: bv16,
    others: bv16)

  function ConvertTextAttr(win: bv16): TextAttributes {
    TextAttributes(win & FG_COLORS, win & BG_COLORS, win & FG_INTENSITY, win & BG_INTENSITY,
                   win & UNDERSCORE, win & OTHERS)
  }

  function Packed(t: TextAttributes): bv16 {
    t.foreground | t.background | t.fgIntensity | t.bgIntensity | t.underscore | t.others
  }

  predicate ForegroundRange(c: bv16) {
    c & !(FG_COLORS | FG_INTENSITY) == 0
  }

  predicate BackgroundRange(c: bv16) {
    c & !(BG_COLORS | BG_INTENSITY) == 0
  }

  // What codes can put into the parts: a colour may carry the intensity of its light variant.
  predicate InRange(t: TextAttributes) {
    && ForegroundRange(t.foreground) && BackgroundRange(t.background)
    && t.fgIntensity & !FG_INTENSITY == 0 && t.bgIntensity & !BG_INTENSITY == 0
    && t.underscore & !UNDERSCORE == 0 && t.others & !OTHERS == 0
  }

  predicate ForegroundBit(c: bv16) {
    c & FG_INTENSITY != 0
  }

  predicate BackgroundBit(c: bv16) {
    c & BG_INTENSITY != 0
  }

  predicate LightForeground(t: TextAttributes) {
    ForegroundBit(t.foreground)
  }

  predicate LightBackground(t: TextAttributes) {
    BackgroundBit(t.background)
  }

  lemma UnpackPacked(t: TextAttributes)
    requires InRange(t)
    ensures ConvertTextAttr(Packed(t)) == t <==> !LightForeground(t) && !LightBackground(t)
  {
  }

  /** What is packed can be unpacked again exactly when no light colour is among the parts. */
  method ConvertWinAttr(t: TextAttributes) returns (win: bv16)
    ensures win == Packed(t)
    ensures InRange(t) ==> (ConvertTextAttr(win) == t <==> !LightForeground(t) && !LightBackground(t))
  {
    if InRange(t) {
      UnpackPacked(t);
    }
    win := 0;
    win := win | t.foreground;
    win := win | t.background;
    win := win | t.fgIntensity;
    win := win | t.bgIntensity;
    win := win | t.underscore;
    win := win | t.others;
  }

  /** Unpacking loses nothing. */
  lemma PackUnpack(win: bv16)
    ensures Packed(ConvertTextAttr(win)) == win
  {
  }

  // ---------- SGR codes ----------

  datatype Effect = Foreground(color: bv16) | Background(color: bv16) | NoColor

  // Black, red, green, yellow, blue, magenta, cyan, white.
  function Rgb(d: char, red: bv16, green: bv16, blue: bv16): bv16 {
    if d == '1' then red
    else if d == '2' then green
    else if d == '3' then red | green
    else if d == '4' then blue
    else if d == '5' then red | blue
    else if d == '6' then green | blue
    else if d == '7' then red | green | blue
    else 0
  }

  // An entry of the colour table: the default colours, and the plain and light rows of eight.
  datatype Entry =
    | DefaultForeground
    | DefaultBackground
    | RowForeground(light: bool, digit: char)
    | RowBackground(light: bool, digit: char)

  /** The keys of the colour table, with the eight colours of a row taken together. Bytes are characters here. */
  function Lookup(code: string): Option<Entry> {
    if code == "39" then Some(DefaultForeground)
    else if code == "49" then Some(DefaultBackground)
    else if |code| == 2 && '0' <= code[1] <= '7' then
      if code[0] == '3' then Some(RowForeground(false, code[1]))
      else if code[0] == '4' then Some(RowBackground(false, code[1]))
      else if code[0] == '9' then Some(RowForeground(true, code[1]))
      else None
    else if |code| == 3 && code[..2] == "10" && '0' <= code[2] <= '7' then Some(RowBackground(true, code[2]))
    else None
  }

  /** `initial` is the console's attribute at start-up, which the two default-colour codes refer to. */
  function Value(entry: Entry, initial: bv16): Effect {
    match entry
    case DefaultForeground => Foreground(initial & FG_COLORS)
    case DefaultBackground => Background(initial & BG_COLORS)
    case RowForeground(light, d) =>
      var c := Rgb(d, FG_RED, FG_GREEN, FG_BLUE);
      Foreground(if light then FG_INTENSITY | c else c)
    case RowBackground(light, d) =>
      var c := Rgb(d, BG_RED, BG_GREEN, BG_BLUE);
      Background(if light then BG_INTENSITY | c else c)
  }

  function ColorOf(code: string, initial: bv16): Effect {
    match Lookup(code)
    case None => NoColor
    case Some(entry) => Value(entry, initial)
  }

  // The codes that are not colours. Anything else is ignored.
  function ApplySwitch(t: TextAttributes, code: string, initial: bv16): TextAttributes {
    if code == "0" then ConvertTextAttr(initial).(underscore := 0, others := 0)
    else if code == "1" then t.(fgIntensity := FG_INTENSITY)
    else if code == "21" then t.(fgIntensity := 0)
    else if code == "4" then t.(underscore := UNDERSCORE)
    else if code == "24" then t.(underscore := 0)
    else if code == "5" then t.(bgIntensity := BG_INTENSITY)
    else if code == "25" then t.(bgIntensity := 0)
    else t
  }

  /** One code of a sequence. */
  function ApplyCode(t: TextAttributes, code: string, initial: bv16): TextAttributes {
    match ColorOf(code, initial)
    case Foreground(color) => t.(foreground := color)
    case Background(color) => t.(background := color)
    case NoColor => ApplySwitch(t, code, initial)
  }

  function ApplyCodes(t: TextAttributes, codes: seq<string>, initial: bv16): TextAttributes
    decreases |codes|
  {
    if codes == [] then t else ApplyCodes(ApplyCode(t, codes[0], initial), codes[1..], initial)
  }

  lemma {:induction false} ApplyCodesConcat(t: TextAttributes, xs: seq<string>, ys: seq<string>, initial: bv16)
    ensures ApplyCodes(t, xs + ys, initial) == ApplyCodes(ApplyCodes(t, xs, initial), ys, initial)
    decreases |xs|
  {
    hide ApplyCode;
    if xs == [] {
      assert xs + ys == ys;
    } else {
      assert (xs + ys)[1..] == xs[1..] + ys;
      ApplyCodesConcat(ApplyCode(t, xs[0], initial), xs[1..], ys, initial);
    }
  }

  // ---------- changeColor ----------

  /** The attribute an SGR sequence with these parameters leaves; no parameters mean "0". */
  function ChangedAttr(win: bv16, params: string, initial: bv16): bv16 {
    Packed(ApplyCodes(ConvertTextAttr(win), Split(if params == "" then "0" else params, ';'), initial))
  }

  method ChangeColor(win: bv16, params: string, initial: bv16) returns (attr: bv16)
    ensures attr == ChangedAttr(win, params, initial)
  {
    hide ApplyCode, Packed, ConvertTextAttr;
    var winAttr := ConvertTextAttr(win);
    var strParam := params;
    if |strParam| <= 0 {
      strParam := "0";
    }
    var csiParam := Split(strParam, ';');
    for k := 0 to |csiParam|
      invariant ApplyCodes(winAttr, csiParam[k..], initial) == ApplyCodes(ConvertTextAttr(win), csiParam, initial)
    {
      assert csiParam[k..][1..] == csiParam[k + 1..];
      winAttr := ApplyCode(winAttr, csiParam[k], initial);
    }
    assert csiParam[|csiParam|..] == [];
    attr := ConvertWinAttr(winAttr);
  }

  /** A reset restores the initial colours and intensities whatever came before it. */
  lemma ResetRestores(win: bv16, before: seq<string>, initial: bv16)
    ensures Packed(ApplyCodes(ConvertTextAttr(win), before + ["0"], initial))
         == initial & COLOR_BITS
  {
    var t := ApplyCodes(ConvertTextAttr(win), before, initial);
    ApplyCodesConcat(ConvertTextAttr(win), before, ["0"], initial);
    assert ["0"][1..] == [];
    ResetPacked(t, initial);
  }

  lemma ResetPacked(t: TextAttributes, initial: bv16)
    ensures Packed(ApplyCode(t, "0", initial)) == initial & COLOR_BITS
  {
  }

  // ---------- one sequence or two ----------

  /** The codes that set a foreground colour: reset, 39, 30 to 37 and the light ones. */
  predicate SetsForeground(code: string) {
    code == "0" || code == "39" || (|code| == 2 && code[0] == '3' && '0' <= code[1] <= '7') || LightForegroundCode(code)
  }

  /** 90 to 97. */
  predicate LightForegroundCode(code: string) {
    |code| == 2 && code[0] == '9' && '0' <= code[1] <= '7'
  }

  /** The codes that set a background colour: reset, 49, 40 to 47 and the light ones. */
  predicate SetsBackground(code: string) {
    code == "0" || code == "49" || (|code| == 2 && code[0] == '4' && '0' <= code[1] <= '7') || LightBackgroundCode(code)
  }

  /** 100 to 107. */
  predicate LightBackgroundCode(code: string) {
    |code| == 3 && code[..2] == "10" && '0' <= code[2] <= '7'
  }

  /** The last code that sets the foreground sets a light colour. */
  predicate EndsLightForeground(codes: seq<string>)
    decreases |codes|
  {
    codes != [] &&
    var last := codes[|codes| - 1];
    if SetsForeground(last) then LightForegroundCode(last) else EndsLightForeground(codes[..|codes| - 1])
  }

  /** The last code that sets the background sets a light colour. */
  predicate EndsLightBackground(codes: seq<string>)
    decreases |codes|
  {
    codes != [] &&
    var last := codes[|codes| - 1];
    if SetsBackground(last) then LightBackgroundCode(last) else EndsLightBackground(codes[..|codes| - 1])
  }

  // The intensity bit of the colours in a row of the table.
  lemma RgbLight(digit: char)
    ensures !ForegroundBit(Rgb(digit, FG_RED, FG_GREEN, FG_BLUE))
    ensures ForegroundBit(FG_INTENSITY | Rgb(digit, FG_RED, FG_GREEN, FG_BLUE))
    ensures !BackgroundBit(Rgb(digit, BG_RED, BG_GREEN, BG_BLUE))
    ensures BackgroundBit(BG_INTENSITY | Rgb(digit, BG_RED, BG_GREEN, BG_BLUE))
  {
  }

  lemma UnpackedPlain(win: bv16)
    ensures !ForegroundBit(win & FG_COLORS) && !BackgroundBit(win & BG_COLORS)
    ensures !LightForeground(ConvertTextAttr(win)) && !LightBackground(ConvertTextAttr(win))
  {
    MasksDisjoint(win);
    hide ForegroundBit, BackgroundBit;
  }

  lemma MasksDisjoint(win: bv16)
    ensures !ForegroundBit(win & FG_COLORS) && !BackgroundBit(win & BG_COLORS)
  {
  }

  lemma ValueLight(entry: Entry, initial: bv16)
    ensures match Value(entry, initial)
      case Foreground(c) =>
        (entry.DefaultForeground? || entry.RowForeground?) && ForegroundRange(c)
        && ForegroundBit(c) == (entry.RowForeground? && entry.light)
      case Background(c) =>
        (entry.DefaultBackground? || entry.RowBackground?) && BackgroundRange(c)
        && BackgroundBit(c) == (entry.RowBackground? && entry.light)
      case NoColor => false
  {
    UnpackedPlain(initial);
    PlainRange(initial);
    if entry.RowForeground? || entry.RowBackground? {
      RgbLight(entry.digit);
      RgbRange(entry.digit);
    }
    hide Rgb, ForegroundBit, BackgroundBit, ForegroundRange, BackgroundRange;
  }

  lemma LookupSets(code: string)
    ensures match Lookup(code)
      case None =>
        && !LightForegroundCode(code) && !LightBackgroundCode(code)
        && SetsForeground(code) == SetsBackground(code) == (code == "0")
      case Some(DefaultForeground) => SetsForeground(code) && !SetsBackground(code) && !LightForegroundCode(code)
      case Some(DefaultBackground) => SetsBackground(code) && !SetsForeground(code) && !LightBackgroundCode(code)
      case Some(RowForeground(light, _)) =>
        SetsForeground(code) && !SetsBackground(code) && light == LightForegroundCode(code)
      case Some(RowBackground(light, _)) =>
        SetsBackground(code) && !SetsForeground(code) && light == LightBackgroundCode(code)
  {
  }

  lemma ColorLight(code: string, initial: bv16)
    ensures match ColorOf(code, initial)
      case Foreground(c) =>
        && ForegroundRange(c) && SetsForeground(code) && !SetsBackground(code)
        && ForegroundBit(c) == LightForegroundCode(code)
      case Background(c) =>
        && BackgroundRange(c) && SetsBackground(code) && !SetsForeground(code)
        && BackgroundBit(c) == LightBackgroundCode(code)
      case NoColor =>
        && !LightForegroundCode(code) && !LightBackgroundCode(code)
        && SetsForeground(code) == SetsBackground(code) == (code == "0")
  {
    LookupSets(code);
    if Lookup(code).Some? {
      ValueLight(Lookup(code).value, initial);
    }
    hide Lookup, Value, ForegroundBit, BackgroundBit, ForegroundRange, BackgroundRange, SetsForeground, SetsBackground,
         LightForegroundCode, LightBackgroundCode;
  }

  lemma SwitchLight(t: TextAttributes, code: string, initial: bv16)
    ensures var u := ApplySwitch(t, code, initial);
      && LightForeground(u) == (code != "0" && LightForeground(t))
      && LightBackground(u) == (code != "0" && LightBackground(t))
  {
    UnpackedPlain(initial);
    hide ForegroundBit, BackgroundBit, ConvertTextAttr;
  }

  // One code makes a colour light, or plain, or leaves it as it is.
  lemma CodeLight(t: TextAttributes, code: string, initial: bv16)
    ensures var u := ApplyCode(t, code, initial);
      && LightForeground(u) == (if SetsForeground(code) then LightForegroundCode(code) else LightForeground(t))
      && LightBackground(u) == (if SetsBackground(code) then LightBackgroundCode(code) else LightBackground(t))
  {
    ColorLight(code, initial);
    SwitchLight(t, code, initial);
    hide ColorOf, ApplySwitch, SetsForeground, SetsBackground, LightForegroundCode, LightBackgroundCode,
         ForegroundBit, BackgroundBit;
  }

  lemma {:induction false} CodesLight(win: bv16, codes: seq<string>, initial: bv16)
    ensures var t := ApplyCodes(ConvertTextAttr(win), codes, initial);
      LightForeground(t) == EndsLightForeground(codes) && LightBackground(t) == EndsLightBackground(codes)
    decreases |codes|
  {
    if codes == [] {
      UnpackedPlain(win);
    } else {
      var init, last := codes[..|codes| - 1], codes[|codes| - 1];
      var t := ApplyCodes(ConvertTextAttr(win), init, initial);
      CodesLight(win, init, initial);
      CodeLight(t, last, initial);
      ApplyCodesConcat(ConvertTextAttr(win), init, [last], initial);
      assert codes == init + [last];
      assert [last][1..] == [];
      hide ApplyCode, ConvertTextAttr, LightForeground, LightBackground, SetsForeground, SetsBackground;
    }
  }

  lemma {:induction false} CodesInRange(t: TextAttributes, codes: seq<string>, initial: bv16)
    requires InRange(t)
    ensures InRange(ApplyCodes(t, codes, initial))
    decreases |codes|
  {
    if codes != [] {
      CodeInRange(t, codes[0], initial);
      hide InRange, ApplyCode;
      CodesInRange(ApplyCode(t, codes[0], initial), codes[1..], initial);
    }
  }

  lemma CodeInRange(t: TextAttributes, code: string, initial: bv16)
    requires InRange(t)
    ensures InRange(ApplyCode(t, code, initial))
  {
    ColorLight(code, initial);
    SwitchInRange(t, code, initial);
    hide ColorOf, ApplySwitch;
  }

  lemma SwitchInRange(t: TextAttributes, code: string, initial: bv16)
    requires InRange(t)
    ensures InRange(ApplySwitch(t, code, initial))
  {
    ConvertInRange(initial);
    FieldsInRange(t);
    hide InRange, ConvertTextAttr, FG_INTENSITY, BG_INTENSITY, UNDERSCORE;
  }

  lemma FieldsInRange(t: TextAttributes)
    requires InRange(t)
    ensures InRange(t.(fgIntensity := FG_INTENSITY)) && InRange(t.(fgIntensity := 0))
    ensures InRange(t.(bgIntensity := BG_INTENSITY)) && InRange(t.(bgIntensity := 0))
    ensures InRange(t.(underscore := UNDERSCORE)) && InRange(t.(underscore := 0))
  {
  }

  lemma ConvertInRange(win: bv16)
    ensures InRange(ConvertTextAttr(win)) && InRange(ConvertTextAttr(win).(underscore := 0, others := 0))
  {
  }

  lemma RgbRange(digit: char)
    ensures var c := Rgb(digit, FG_RED, FG_GREEN, FG_BLUE); ForegroundRange(c) && ForegroundRange(FG_INTENSITY | c)
    ensures var c := Rgb(digit, BG_RED, BG_GREEN, BG_BLUE); BackgroundRange(c) && BackgroundRange(BG_INTENSITY | c)
  {
  }

  lemma PlainRange(win: bv16)
    ensures ForegroundRange(win & FG_COLORS) && BackgroundRange(win & BG_COLORS)
  {
  }

  // ---------- which bits a sequence sets ----------

  // The bits of the console word: in front 4 red, 2 green, 1 blue and 8 for intensity, 0x40, 0x20, 0x10 and
  // 0x80 behind. They are written out here, and nothing below refers to the table of colours.

  predicate SetsIntensity(code: string) {
    code == "0" || code == "1" || code == "21"
  }

  predicate SetsBackIntensity(code: string) {
    code == "0" || code == "5" || code == "25"
  }

  predicate SetsUnderscore(code: string) {
    code == "0" || code == "4" || code == "24"
  }

  /** The last of the codes that is of a kind. */
  function Last(codes: seq<string>, kind: string -> bool): Option<string>
    decreases |codes|
  {
    if codes == [] then None
    else if kind(codes[|codes| - 1]) then Some(codes[|codes| - 1])
    else Last(codes[..|codes| - 1], kind)
  }

  /** A colour in front: that of the start-up, or red, green and blue as the bits 0, 1 and 2 of the digit say. */
  predicate FrontColor(w: bv16, code: string, initial: bv16) {
    if code == "0" || code == "39" then w & 0x7 == initial & 0x7
    else
      && |code| == 2 && '0' <= code[1] <= '7'
      && var d := code[1] as int - '0' as int;
         && (w & 0x4 != 0 <==> d % 2 == 1) && (w & 0x2 != 0 <==> d / 2 % 2 == 1) && (w & 0x1 != 0 <==> d / 4 == 1)
  }

  /** The same behind. */
  predicate BackColor(w: bv16, code: string, initial: bv16) {
    if code == "0" || code == "49" then w & 0x70 == initial & 0x70
    else
      && |code| >= 2 && '0' <= code[|code| - 1] <= '7'
      && var d := code[|code| - 1] as int - '0' as int;
         && (w & 0x40 != 0 <==> d % 2 == 1) && (w & 0x20 != 0 <==> d / 2 % 2 == 1) && (w & 0x10 != 0 <==> d / 4 == 1)
  }

  lemma RgbBits(digit: char)
    requires '0' <= digit <= '7'
    ensures var w, d := Rgb(digit, FG_RED, FG_GREEN, FG_BLUE), digit as int - '0' as int;
      (w & 0x4 != 0 <==> d % 2 == 1) && (w & 0x2 != 0 <==> d / 2 % 2 == 1) && (w & 0x1 != 0 <==> d / 4 == 1)
    ensures var w, d := Rgb(digit, BG_RED, BG_GREEN, BG_BLUE), digit as int - '0' as int;
      (w & 0x40 != 0 <==> d % 2 == 1) && (w & 0x20 != 0 <==> d / 2 % 2 == 1) && (w & 0x10 != 0 <==> d / 4 == 1)
  {
  }

  // The light variant adds the intensity and changes no colour.
  lemma LightBits(c: bv16)
    ensures (FG_INTENSITY | c) & 0x4 == c & 0x4 && (FG_INTENSITY | c) & 0x2 == c & 0x2 && (FG_INTENSITY | c) & 0x1 == c & 0x1
    ensures (BG_INTENSITY | c) & 0x40 == c & 0x40 && (BG_INTENSITY | c) & 0x20 == c & 0x20
    ensures (BG_INTENSITY | c) & 0x10 == c & 0x10
  {
  }

  lemma MaskTwice(w: bv16)
    ensures w & FG_COLORS & 0x7 == w & 0x7 && w & BG_COLORS & 0x70 == w & 0x70
  {
  }

  lemma ColorBits(code: string, initial: bv16)
    ensures match ColorOf(code, initial)
      case Foreground(c) => FrontColor(c, code, initial)
      case Background(c) => BackColor(c, code, initial)
      case NoColor => true
  {
    MaskTwice(initial);
    match Lookup(code)
    case None =>
    case Some(RowForeground(_, d)) => RgbBits(d); LightBits(Rgb(d, FG_RED, FG_GREEN, FG_BLUE));
    case Some(RowBackground(_, d)) => RgbBits(d); LightBits(Rgb(d, BG_RED, BG_GREEN, BG_BLUE));
    case _ =>
  }

  lemma SwitchIsNoColor(code: string, initial: bv16)
    requires SetsIntensity(code) || SetsBackIntensity(code) || SetsUnderscore(code)
    ensures ColorOf(code, initial) == NoColor
  {
  }

  function FrontIntensity(code: string, initial: bv16): bv16 {
    if code == "0" then initial & 0x8 else if code == "1" then 0x8 else 0
  }

  function BackIntensity(code: string, initial: bv16): bv16 {
    if code == "0" then initial & 0x80 else if code == "5" then 0x80 else 0
  }

  function Underscore(code: string): bv16 {
    if code == "4" then 0x8000 else 0
  }

  // What one code does to each part.
  ghost predicate PartsStep(t: TextAttributes, u: TextAttributes, code: string, initial: bv16) {
    && (if SetsForeground(code) then FrontColor(u.foreground, code, initial) else u.foreground == t.foreground)
    && (if SetsBackground(code) then BackColor(u.background, code, initial) else u.background == t.background)
    && u.fgIntensity == (if SetsIntensity(code) then FrontIntensity(code, initial) else t.fgIntensity)
    && u.bgIntensity == (if SetsBackIntensity(code) then BackIntensity(code, initial) else t.bgIntensity)
    && u.underscore == (if SetsUnderscore(code) then Underscore(code) else t.underscore)
    && u.others == (if code == "0" then 0 else t.others)
  }

  lemma SwitchParts(t: TextAttributes, code: string, initial: bv16)
    requires SetsForeground(code) == SetsBackground(code) == (code == "0")
    ensures PartsStep(t, ApplySwitch(t, code, initial), code, initial)
  {
    hide FrontColor, BackColor, ConvertTextAttr, SetsForeground, SetsBackground;
    if code == "0" {
      ResetParts(initial);
    } else {
      SwitchOne(t, code, initial);
    }
  }

  // A switch other than the reset changes its own part and no other.
  lemma SwitchOne(t: TextAttributes, code: string, initial: bv16)
    requires code != "0"
    ensures ApplySwitch(t, code, initial)
         == t.(fgIntensity := if SetsIntensity(code) then FrontIntensity(code, initial) else t.fgIntensity,
               bgIntensity := if SetsBackIntensity(code) then BackIntensity(code, initial) else t.bgIntensity,
               underscore := if SetsUnderscore(code) then Underscore(code) else t.underscore)
  {
    hide ConvertTextAttr;
  }

  lemma ResetParts(initial: bv16)
    ensures var u := ConvertTextAttr(initial);
      && FrontColor(u.foreground, "0", initial) && BackColor(u.background, "0", initial)
      && u.fgIntensity == initial & 0x8 && u.bgIntensity == initial & 0x80
  {
    MaskTwice(initial);
  }

  lemma CodeParts(t: TextAttributes, code: string, initial: bv16)
    ensures PartsStep(t, ApplyCode(t, code, initial), code, initial)
  {
    ColorBits(code, initial);
    ColorLight(code, initial);
    if SetsIntensity(code) || SetsBackIntensity(code) || SetsUnderscore(code) {
      SwitchIsNoColor(code, initial);
    }
    assert code == "0" ==> SetsIntensity(code);
    if ColorOf(code, initial) == NoColor {
      SwitchParts(t, code, initial);
    }
    hide ColorOf, ApplySwitch, SetsForeground, SetsBackground, SetsIntensity, SetsBackIntensity, SetsUnderscore, FrontColor,
         BackColor, FrontIntensity, BackIntensity, Underscore, ForegroundBit, BackgroundBit, ForegroundRange, BackgroundRange,
         LightForegroundCode, LightBackgroundCode;
  }

  // The parts after codes, by the last code of each kind.
  ghost predicate PartsAfter(t: TextAttributes, win: bv16, codes: seq<string>, initial: bv16) {
    && (match Last(codes, SetsForeground)
        case None => t.foreground == win & 0x7
        case Some(c) => FrontColor(t.foreground, c, initial))
    && (match Last(codes, SetsBackground)
        case None => t.background == win & 0x70
        case Some(c) => BackColor(t.background, c, initial))
    && t.fgIntensity == (match Last(codes, SetsIntensity)
                         case None => win & 0x8
                         case Some(c) => FrontIntensity(c, initial))
    && t.bgIntensity == (match Last(codes, SetsBackIntensity)
                         case None => win & 0x80
                         case Some(c) => BackIntensity(c, initial))
    && t.underscore == (match Last(codes, SetsUnderscore)
                        case None => win & 0x8000
                        case Some(c) => Underscore(c))
    && t.others == (if "0" in codes then 0 else win & 0x7f00)
  }

  lemma {:induction false} CodesParts(win: bv16, codes: seq<string>, initial: bv16)
    ensures PartsAfter(ApplyCodes(ConvertTextAttr(win), codes, initial), win, codes, initial)
    decreases |codes|
  {
    if codes != [] {
      var init, last := codes[..|codes| - 1], codes[|codes| - 1];
      var t := ApplyCodes(ConvertTextAttr(win), init, initial);
      CodesParts(win, init, initial);
      CodeParts(t, last, initial);
      ApplyCodesConcat(ConvertTextAttr(win), init, [last], initial);
      assert codes == init + [last];
      assert [last][1..] == [];
      hide ApplyCode, ConvertTextAttr, PartsStep, PartsAfter;
      PartsNext(t, ApplyCode(t, last, initial), win, codes, initial);
    }
  }

  lemma PartsNext(t: TextAttributes, u: TextAttributes, win: bv16, codes: seq<string>, initial: bv16)
    requires codes != [] && PartsAfter(t, win, codes[..|codes| - 1], initial)
    requires PartsStep(t, u, codes[|codes| - 1], initial)
    ensures PartsAfter(u, win, codes, initial)
  {
    hide FrontColor, BackColor, SetsForeground, SetsBackground, SetsIntensity, SetsBackIntensity, SetsUnderscore, FrontIntensity,
         BackIntensity, Underscore;
  }

  // The bits of the packed word are those of its parts; a light colour adds its intensity.
  lemma PackedBits(t: TextAttributes)
    requires InRange(t)
    ensures var w := Packed(t);
      && w & 0x7 == t.foreground & 0x7 && w & 0x70 == t.background & 0x70
      && w & 0x8 == (t.foreground & 0x8) | t.fgIntensity && w & 0x80 == (t.background & 0x80) | t.bgIntensity
      && w & 0x8000 == t.underscore && w & 0x7f00 == t.others
  {
  }

  /** The colour in front is that of the last code that sets one, or what it was. */
  predicate FrontAfter(w: bv16, win: bv16, codes: seq<string>, initial: bv16) {
    match Last(codes, SetsForeground)
    case None => w & 0x7 == win & 0x7
    case Some(c) => FrontColor(w, c, initial)
  }

  predicate BackAfter(w: bv16, win: bv16, codes: seq<string>, initial: bv16) {
    match Last(codes, SetsBackground)
    case None => w & 0x70 == win & 0x70
    case Some(c) => BackColor(w, c, initial)
  }

  /** Intensity is as its last switch has it, and is set besides by a light colour in effect. */
  predicate FrontIntensityAfter(w: bv16, win: bv16, codes: seq<string>, initial: bv16) {
    w & 0x8 != 0 <==>
      || EndsLightForeground(codes)
      || match Last(codes, SetsIntensity)
         case None => win & 0x8 != 0
         case Some(c) => c == "1" || (c == "0" && initial & 0x8 != 0)
  }

  predicate BackIntensityAfter(w: bv16, win: bv16, codes: seq<string>, initial: bv16) {
    w & 0x80 != 0 <==>
      || EndsLightBackground(codes)
      || match Last(codes, SetsBackIntensity)
         case None => win & 0x80 != 0
         case Some(c) => c == "5" || (c == "0" && initial & 0x80 != 0)
  }

  /** A reset clears what is neither colour nor intensity; only the underscore has switches besides. */
  predicate OthersAfter(w: bv16, win: bv16, codes: seq<string>) {
    && (w & 0x8000 != 0 <==>
          match Last(codes, SetsUnderscore)
          case None => win & 0x8000 != 0
          case Some(c) => c == "4")
    && w & 0x7f00 == if "0" in codes then 0 else win & 0x7f00
  }

  lemma FrontSame(w: bv16, v: bv16, code: string, initial: bv16)
    requires w & 0x7 == v & 0x7
    ensures w & 0x4 == v & 0x4 && w & 0x2 == v & 0x2 && w & 0x1 == v & 0x1
    ensures FrontColor(w, code, initial) == FrontColor(v, code, initial)
  {
    ThreeBits(w, v);
  }

  lemma ThreeBits(w: bv16, v: bv16)
    ensures w & 0x7 == v & 0x7 ==> w & 0x4 == v & 0x4 && w & 0x2 == v & 0x2 && w & 0x1 == v & 0x1
    ensures w & 0x70 == v & 0x70 ==> w & 0x40 == v & 0x40 && w & 0x20 == v & 0x20 && w & 0x10 == v & 0x10
  {
  }

  lemma BackSame(w: bv16, v: bv16, code: string, initial: bv16)
    requires w & 0x70 == v & 0x70
    ensures BackColor(w, code, initial) == BackColor(v, code, initial)
  {
    ThreeBits(w, v);
  }

  lemma ColorsAfter(t: TextAttributes, w: bv16, win: bv16, codes: seq<string>, initial: bv16)
    requires PartsAfter(t, win, codes, initial) && w & 0x7 == t.foreground & 0x7 && w & 0x70 == t.background & 0x70
    ensures FrontAfter(w, win, codes, initial) && BackAfter(w, win, codes, initial)
  {
    MaskTwice(win);
    match Last(codes, SetsForeground) {
      case None =>
      case Some(c) => FrontSame(w, t.foreground, c, initial);
    }
    match Last(codes, SetsBackground) {
      case None =>
      case Some(c) => BackSame(w, t.background, c, initial);
    }
    hide FrontColor, BackColor, Last;
  }

  lemma EitherBit(x: bv16, y: bv16)
    ensures x | y != 0 <==> x != 0 || y != 0
  {
  }

  lemma IntensitiesAfter(t: TextAttributes, w: bv16, win: bv16, codes: seq<string>, initial: bv16)
    requires PartsAfter(t, win, codes, initial)
    requires w & 0x8 == (t.foreground & 0x8) | t.fgIntensity && w & 0x80 == (t.background & 0x80) | t.bgIntensity
    requires (t.foreground & 0x8 != 0) == EndsLightForeground(codes) && (t.background & 0x80 != 0) == EndsLightBackground(codes)
    ensures FrontIntensityAfter(w, win, codes, initial) && BackIntensityAfter(w, win, codes, initial)
  {
    EitherBit(t.foreground & 0x8, t.fgIntensity);
    EitherBit(t.background & 0x80, t.bgIntensity);
    LastIs(codes, SetsIntensity);
    LastIs(codes, SetsBackIntensity);
    hide Last, FrontColor, BackColor, EndsLightForeground, EndsLightBackground, SetsForeground, SetsBackground, SetsUnderscore;
  }

  lemma {:induction false} LastIs(codes: seq<string>, kind: string -> bool)
    ensures Last(codes, kind).Some? ==> kind(Last(codes, kind).value)
    decreases |codes|
  {
    if codes != [] {
      LastIs(codes[..|codes| - 1], kind);
    }
  }

  lemma SwitchesAfter(t: TextAttributes, w: bv16, win: bv16, codes: seq<string>, initial: bv16)
    requires PartsAfter(t, win, codes, initial) && w & 0x8000 == t.underscore && w & 0x7f00 == t.others
    ensures OthersAfter(w, win, codes)
  {
    hide Last, FrontColor, BackColor;
  }

  /**
   What a sequence leaves on the console, bit by bit: colours in front and behind, each untouched by the
   codes of the other, intensities and underscore.
   */
  lemma SequenceSets(win: bv16, params: string, initial: bv16)
    ensures var codes := Split(if params == "" then "0" else params, ';'); var w := ChangedAttr(win, params, initial);
      && FrontAfter(w, win, codes, initial) && BackAfter(w, win, codes, initial)
      && FrontIntensityAfter(w, win, codes, initial) && BackIntensityAfter(w, win, codes, initial)
      && OthersAfter(w, win, codes)
  {
    var codes := Split(if params == "" then "0" else params, ';');
    var t := ApplyCodes(ConvertTextAttr(win), codes, initial);
    CodesParts(win, codes, initial);
    CodesLight(win, codes, initial);
    ConvertInRange(win);
    CodesInRange(ConvertTextAttr(win), codes, initial);
    assert LightForeground(t) == (t.foreground & 0x8 != 0) && LightBackground(t) == (t.background & 0x80 != 0);
    hide *;
    PackedBits(t);
    ColorsAfter(t, Packed(t), win, codes, initial);
    IntensitiesAfter(t, Packed(t), win, codes, initial);
    SwitchesAfter(t, Packed(t), win, codes, initial);
    ChangedIsPacked(win, params, initial);
  }

  lemma ChangedIsPacked(win: bv16, params: string, initial: bv16)
    ensures ChangedAttr(win, params, initial)
         == Packed(ApplyCodes(ConvertTextAttr(win), Split(if params == "" then "0" else params, ';'), initial))
  {
    hide Packed, ApplyCodes, ConvertTextAttr, Split;
  }

  /** The two colours that are easily exchanged: 31 is red, 32 is green, in front and behind. */
  lemma RedAndGreen(initial: bv16)
    ensures ChangedAttr(0x07, "31", initial) == 0x04 && ChangedAttr(0x07, "32", initial) == 0x02
    ensures ChangedAttr(0x07, "41", initial) == 0x47 && ChangedAttr(0x07, "42", initial) == 0x27
  {
    SplitPlain("31", ';');
    SplitPlain("32", ';');
    SplitPlain("41", ';');
    SplitPlain("42", ';');
    hide Split;
    assert ["31"][1..] == [] && ["32"][1..] == [] && ["41"][1..] == [] && ["42"][1..] == [];
  }

  // The attribute after one sequence with the codes xs and ys, and after two sequences.
  function OneSequence(win: bv16, xs: seq<string>, ys: seq<string>, initial: bv16): bv16 {
    Packed(ApplyCodes(ConvertTextAttr(win), xs + ys, initial))
  }

  function TwoSequences(win: bv16, xs: seq<string>, ys: seq<string>, initial: bv16): bv16 {
    Packed(ApplyCodes(ConvertTextAttr(Packed(ApplyCodes(ConvertTextAttr(win), xs, initial))), ys, initial))
  }

  // On codes: a colour that packing turns into an intensity is what makes the difference.
  lemma CodesCut(win: bv16, xs: seq<string>, initial: bv16)
    ensures !EndsLightForeground(xs) && !EndsLightBackground(xs)
        ==> forall ys :: OneSequence(win, xs, ys, initial) == TwoSequences(win, xs, ys, initial)
    ensures EndsLightForeground(xs) || EndsLightBackground(xs) ==>
      || OneSequence(win, xs, ["21"], initial) != TwoSequences(win, xs, ["21"], initial)
      || OneSequence(win, xs, ["25"], initial) != TwoSequences(win, xs, ["25"], initial)
  {
    var t := ApplyCodes(ConvertTextAttr(win), xs, initial);
    ConvertInRange(win);
    CodesInRange(ConvertTextAttr(win), xs, initial);
    CodesLight(win, xs, initial);
    UnpackPacked(t);
    hide ApplyCodes, InRange, ConvertTextAttr, Packed, LightForeground, LightBackground, EndsLightForeground, EndsLightBackground;
    forall ys
      ensures OneSequence(win, xs, ys, initial) == Packed(ApplyCodes(t, ys, initial))
    {
      ApplyCodesConcat(ConvertTextAttr(win), xs, ys, initial);
    }
    if LightForeground(t) || LightBackground(t) {
      LightDiffers(t, initial);
    }
  }

  lemma LightDiffers(t: TextAttributes, initial: bv16)
    requires InRange(t) && (LightForeground(t) || LightBackground(t))
    ensures Packed(ApplyCodes(t, ["21"], initial)) != Packed(ApplyCodes(ConvertTextAttr(Packed(t)), ["21"], initial))
         || Packed(ApplyCodes(t, ["25"], initial)) != Packed(ApplyCodes(ConvertTextAttr(Packed(t)), ["25"], initial))
  {
    var u := ConvertTextAttr(Packed(t));
    assert ["21"][1..] == [] && ["25"][1..] == [];
    assert ApplyCodes(t, ["21"], initial) == t.(fgIntensity := 0) && ApplyCodes(u, ["21"], initial) == u.(fgIntensity := 0);
    assert ApplyCodes(t, ["25"], initial) == t.(bgIntensity := 0) && ApplyCodes(u, ["25"], initial) == u.(bgIntensity := 0);
    LightDiffersInBits(t);
    hide ApplyCodes, Packed, ConvertTextAttr, InRange, LightForeground, LightBackground, FG_INTENSITY, BG_INTENSITY;
  }

  lemma LightDiffersInBits(t: TextAttributes)
    requires InRange(t) && (LightForeground(t) || LightBackground(t))
    ensures Packed(t.(fgIntensity := 0)) != Packed(ConvertTextAttr(Packed(t)).(fgIntensity := 0))
         || Packed(t.(bgIntensity := 0)) != Packed(ConvertTextAttr(Packed(t)).(bgIntensity := 0))
  {
  }

  // The codes of the two halves.
  lemma CutCodes(win: bv16, p: string, q: string, initial: bv16)
    requires p != "" && q != ""
    ensures ChangedAttr(win, p + ";" + q, initial) == OneSequence(win, Split(p, ';'), Split(q, ';'), initial)
    ensures ChangedAttr(ChangedAttr(win, p, initial), q, initial)
         == TwoSequences(win, Split(p, ';'), Split(q, ';'), initial)
  {
    SplitConcat(p, q, ';');
    ConcatAssoc(p, ";", q);
    hide ApplyCodes, Packed, ConvertTextAttr, Split;
  }

  /**
   Cutting a sequence in two, neither half empty, leaves the same attribute whatever follows, exactly when
   neither the last foreground code of the first half is 90 to 97 nor its last background code 100 to 107:
   packing turns the intensity of a light colour into the intensity attribute, which the next plain colour keeps.
   */
  lemma CutExact(win: bv16, p: string, initial: bv16)
    requires p != ""
    ensures !EndsLightForeground(Split(p, ';')) && !EndsLightBackground(Split(p, ';'))
       <==> forall q :: q != "" ==>
              ChangedAttr(ChangedAttr(win, p, initial), q, initial) == ChangedAttr(win, p + ";" + q, initial)
  {
    CodesCut(win, Split(p, ';'), initial);
    SplitPlain("21", ';');
    SplitPlain("25", ';');
    hide ChangedAttr, OneSequence, TwoSequences, EndsLightForeground, EndsLightBackground, Split;
    forall q | q != ""
      ensures ChangedAttr(win, p + ";" + q, initial) == OneSequence(win, Split(p, ';'), Split(q, ';'), initial)
      ensures ChangedAttr(ChangedAttr(win, p, initial), q, initial)
           == TwoSequences(win, Split(p, ';'), Split(q, ';'), initial)
    {
      CutCodes(win, p, q, initial);
    }
  }

  // ---------- empty parameters ----------

  /** A sequence without parameters is a reset. */
  lemma EmptyResets(win: bv16, initial: bv16)
    ensures ChangedAttr(win, "", initial) == initial & COLOR_BITS
  {
    SplitPlain("0", ';');
    assert [] + ["0"] == ["0"];
    ResetRestores(win, [], initial);
    hide ApplyCodes, Packed, ConvertTextAttr, Split;
  }

  lemma EmptyCode(t: TextAttributes, initial: bv16)
    ensures ApplyCode(t, "", initial) == t
  {
  }

  /** An empty parameter before others is ignored. */
  lemma EmptyFirst(win: bv16, q: string, initial: bv16)
    ensures ChangedAttr(win, ";" + q, initial) == if q == "" then win else ChangedAttr(win, q, initial)
  {
    var t := ConvertTextAttr(win);
    SplitConcat("", q, ';');
    assert "" + (";" + q) == ";" + q;
    assert ([""] + Split(q, ';'))[1..] == Split(q, ';');
    EmptyCode(t, initial);
    PackUnpack(win);
    assert Split("", ';') == [""] && [""][1..] == [];
    assert Split(";" + q, ';') == [""] + Split(q, ';');
    hide ApplyCode, Packed, ConvertTextAttr, Split;
    assert ApplyCodes(t, [""], initial) == t;
    assert ApplyCodes(t, [""] + Split(q, ';'), initial) == ApplyCodes(t, Split(q, ';'), initial);
  }

  /** An empty parameter after others is ignored. */
  lemma EmptyLast(win: bv16, p: string, initial: bv16)
    requires p != ""
    ensures ChangedAttr(win, p + ";", initial) == ChangedAttr(win, p, initial)
  {
    var t := ConvertTextAttr(win);
    SplitConcat(p, "", ';');
    assert ";" + "" == ";";
    ApplyCodesConcat(t, Split(p, ';'), [""], initial);
    EmptyCode(ApplyCodes(t, Split(p, ';'), initial), initial);
    assert [""][1..] == [];
    hide ApplyCode, Packed, ConvertTextAttr;
  }

  /**
   With an empty first half the two sequences agree whatever follows, exactly when the attribute before
   them is the one a reset leaves.
   */
  lemma CutAfterEmpty(win: bv16, initial: bv16)
    ensures (forall q :: ChangedAttr(ChangedAttr(win, "", initial), q, initial) == ChangedAttr(win, ";" + q, initial))
       <==> win == initial & COLOR_BITS
  {
    EmptyResets(win, initial);
    var reset := ChangedAttr(win, "", initial);
    EmptyResets(reset, initial);
    EmptyFirst(win, "", initial);
    hide ChangedAttr;
    assert ";" + "" == ";";
    assert ChangedAttr(reset, "", initial) == reset;
    forall q
      ensures ChangedAttr(win, ";" + q, initial) == if q == "" then win else ChangedAttr(win, q, initial)
    {
      EmptyFirst(win, q, initial);
    }
  }

  /**
   With an empty second half they agree exactly when the first leaves the attribute that a reset leaves:
   the one sequence ignores the empty parameter, and the second of the two resets.
   */
  lemma CutBeforeEmpty(win: bv16, p: string, initial: bv16)
    requires p != ""
    ensures ChangedAttr(ChangedAttr(win, p, initial), "", initial) == ChangedAttr(win, p + ";", initial)
       <==> ChangedAttr(win, p, initial) == initial & COLOR_BITS
  {
    EmptyResets(ChangedAttr(win, p, initial), initial);
    EmptyLast(win, p, initial);
    hide ChangedAttr;
  }

  /** `ESC[1;m` brightens a console that `ESC[1m ESC[m` leaves as it was. */
  lemma EmptyHalfDiffers()
    ensures ChangedAttr(0x07, "1;", 0x07) == 0x0f
    ensures ChangedAttr(ChangedAttr(0x07, "1", 0x07), "", 0x07) == 0x07
  {
    SplitPlain("1", ';');
    assert ["1"][1..] == [];
    assert ChangedAttr(0x07, "1", 0x07) == 0x0f;
    EmptyLast(0x07, "1", 0x07);
    assert "1" + ";" == "1;";
    EmptyResets(0x0f, 0x07);
  }
}
