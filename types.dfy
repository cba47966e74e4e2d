/** The plain data types of the Vibelight LED controller firmware and the two
    codecs that go with them: a colour packed into a 32-bit word and back, and
    a lighting effect written as a string token and back. */
module Types {

  /** The kind of LED strip attached to the controller. */
  datatype LEDType = Cathode | WS2812B

  /** Whether the strip has a separate white channel. */
  datatype LEDCapability = RGB | RGBW

  /** The direction an animated effect runs in. */
  datatype EffectDirection = Left | Right

  // ---------------------------------------------------------------------------
  // Colour <-> 32-bit word
  // ---------------------------------------------------------------------------

  /** A colour: four 8-bit channels, declared in the order red, green, blue,
      white. The order matters, because the unpacker fills them positionally. */
  datatype Color = Color(red: bv8, green: bv8, blue: bv8, white: bv8)

  /** Byte `k` of a 32-bit word, byte 0 being the least significant. */
  function ByteOf(x: bv32, k: nat): bv8
    requires k < 4
  {
    var shifted := if k == 0 then x else if k == 1 then x >> 8 else if k == 2 then x >> 16 else x >> 24;
    (shifted & 0xFF) as bv8
  }

  /** The word whose bytes, from most to least significant, are b3, b2, b1, b0. */
  function WordOf(b3: bv8, b2: bv8, b1: bv8, b0: bv8): (x: bv32)
    ensures ByteOf(x, 3) == b3 && ByteOf(x, 2) == b2 && ByteOf(x, 1) == b1 && ByteOf(x, 0) == b0
  {
    (b3 as bv32 << 24) | (b2 as bv32 << 16) | (b1 as bv32 << 8) | b0 as bv32
  }

  /** A word is determined by its four bytes. */
  lemma WordOfBytes(x: bv32)
    ensures WordOf(ByteOf(x, 3), ByteOf(x, 2), ByteOf(x, 1), ByteOf(x, 0)) == x
  {
  }

  /** Packs a colour into a word laid out white, red, green, blue from the most
      significant byte down. */
  function ColorToInteger(c: Color): (x: bv32)
    ensures ByteOf(x, 3) == c.white
    ensures ByteOf(x, 2) == c.red
    ensures ByteOf(x, 1) == c.green
    ensures ByteOf(x, 0) == c.blue
  {
    WordOf(c.white, c.red, c.green, c.blue)
  }

  /** The packed word has the numeric value of the channels read as the base-256
      digits white, red, green, blue, so it always lies in [0, 2^32). */
  lemma ColorToIntegerValue(c: Color)
    ensures ColorToInteger(c) as int
         == c.white as int * 0x100_0000 + c.red as int * 0x1_0000 + c.green as int * 0x100 + c.blue as int
    ensures ColorToInteger(c) as int <= 0xFFFF_FFFF
  {
    PackedValue(c.white, c.red, c.green, c.blue);
  }

  /** The numeric value of the word with bytes w, r, g, b. */
  lemma PackedValue(w: bv8, r: bv8, g: bv8, b: bv8)
    ensures WordOf(w, r, g, b) as int
         == w as int * 0x100_0000 + r as int * 0x1_0000 + g as int * 0x100 + b as int
  {
    PackedStepwise(w, r, g, b);
    PackedDigits(w, r, g, b);
  }

  /** The packing done as three steps that each shift the word up a byte and
      put the next channel in the low byte. */
  lemma PackedStepwise(w: bv8, r: bv8, g: bv8, b: bv8)
    ensures WordOf(w, r, g, b)
         == (((((w as bv32 << 8) | r as bv32) << 8) | g as bv32) << 8) | b as bv32
  {
  }

  /** The stepwise packing of w, r, g, b has, as a number, the Horner form of
      those base-256 digits. */
  lemma PackedDigits(w: bv8, r: bv8, g: bv8, b: bv8)
    ensures ((((((w as bv32 << 8) | r as bv32) << 8) | g as bv32) << 8) | b as bv32) as int
         == ((w as int * 0x100 + r as int) * 0x100 + g as int) * 0x100 + b as int
  {
  }

  /** All channels off packs to 0, all channels full packs to 0xFFFFFFFF. */
  lemma ColorToIntegerExtremes()
    ensures ColorToInteger(Color(0, 0, 0, 0)) == 0
    ensures ColorToInteger(Color(0xFF, 0xFF, 0xFF, 0xFF)) == 0xFFFF_FFFF
  {
  }

  /** Distinct colours pack to distinct words. */
  lemma ColorToIntegerInjective(a: Color, b: Color)
    ensures ColorToInteger(a) == ColorToInteger(b) ==> a == b
  {
  }

  /** Unpacks a word into a colour positionally, exactly as the firmware's
      aggregate initialiser does: the bytes from most to least significant go
      to red, green, blue and white, the order the fields are declared in. */
  function IntegerToColor(x: bv32): (c: Color)
    ensures c.red == ByteOf(x, 3)
    ensures c.green == ByteOf(x, 2)
    ensures c.blue == ByteOf(x, 1)
    ensures c.white == ByteOf(x, 0)
  {
    Color(((x >> 24) & 0xFF) as bv8, ((x >> 16) & 0xFF) as bv8, ((x >> 8) & 0xFF) as bv8, ((x >> 0) & 0xFF) as bv8)
  }

  /** The colour whose channels are those of `c` moved one place along
      red -> green -> blue -> white -> red. */
  function RotateChannels(c: Color): Color
  {
    Color(c.white, c.red, c.green, c.blue)
  }

  /** Packing then unpacking does not give back the colour: every channel
      lands in the next field. */
  lemma ColorRoundTrip(c: Color)
    ensures IntegerToColor(ColorToInteger(c)) == RotateChannels(c)
  {
  }

  /** The colour round trip is the identity exactly on grey-level colours, the
      ones whose four channels are all equal. */
  lemma ColorRoundTripIdentityIff(c: Color)
    ensures IntegerToColor(ColorToInteger(c)) == c
        <==> c.red == c.green == c.blue == c.white
  {
    ColorRoundTrip(c);
  }

  /** Unpacking then packing rotates the word right by one byte: the new top
      byte is the old bottom byte and every other byte moves down by one. */
  lemma WordRoundTrip(x: bv32)
    ensures ColorToInteger(IntegerToColor(x)) == x.RotateRight(8)
    ensures ByteOf(ColorToInteger(IntegerToColor(x)), 3) == ByteOf(x, 0)
    ensures ByteOf(ColorToInteger(IntegerToColor(x)), 2) == ByteOf(x, 3)
    ensures ByteOf(ColorToInteger(IntegerToColor(x)), 1) == ByteOf(x, 2)
    ensures ByteOf(ColorToInteger(IntegerToColor(x)), 0) == ByteOf(x, 1)
  {
  }

  /** The colour after `n` pack-then-unpack round trips. */
  function RoundTrips(c: Color, n: nat): Color
  {
    if n == 0 then c else IntegerToColor(ColorToInteger(RoundTrips(c, n - 1)))
  }

  /** The round trip has order four: any whole number of four-fold round trips
      gives the colour back. */
  lemma {:induction false} RoundTripsPeriod(c: Color, n: nat)
    ensures RoundTrips(c, 4 * n) == c
  {
    if n > 0 {
      RoundTripsPeriod(c, n - 1);
      var d := RoundTrips(c, 4 * (n - 1));
      var d1, d2, d3 := RotateChannels(d), RotateChannels(RotateChannels(d)), RotateChannels(RotateChannels(RotateChannels(d)));
      assert RoundTrips(c, 4 * n - 3) == d1 by { ColorRoundTrip(d); }
      assert RoundTrips(c, 4 * n - 2) == d2 by { ColorRoundTrip(d1); }
      assert RoundTrips(c, 4 * n - 1) == d3 by { ColorRoundTrip(d2); }
      assert RoundTrips(c, 4 * n) == d by { ColorRoundTrip(d3); }
    }
  }

  /** The unpacker the "WRGB" documentation of both functions describes: the
      top byte is white, then red, green and blue. */
  function IntegerToColorWrgb(x: bv32): (c: Color)
    ensures c.white == ByteOf(x, 3)
    ensures c.red == ByteOf(x, 2)
    ensures c.green == ByteOf(x, 1)
    ensures c.blue == ByteOf(x, 0)
  {
    Color(((x >> 16) & 0xFF) as bv8, ((x >> 8) & 0xFF) as bv8, ((x >> 0) & 0xFF) as bv8, ((x >> 24) & 0xFF) as bv8)
  }

  /** With that unpacker the two functions are inverses in both directions. */
  lemma WrgbRoundTrips(c: Color, x: bv32)
    ensures IntegerToColorWrgb(ColorToInteger(c)) == c
    ensures ColorToInteger(IntegerToColorWrgb(x)) == x
  {
    WordOfBytes(x);
  }

  /** A colour the firmware's unpacker does not give back: pure red comes back
      as pure green. */
  lemma ColorRoundTripCounterexample()
    ensures IntegerToColor(ColorToInteger(Color(0xFF, 0, 0, 0))) == Color(0, 0xFF, 0, 0)
    ensures IntegerToColor(ColorToInteger(Color(0xFF, 0, 0, 0))) != Color(0xFF, 0, 0, 0)
  {
  }

  // ---------------------------------------------------------------------------
  // Effect <-> string token
  // ---------------------------------------------------------------------------

  /** A lighting effect, in the firmware's enumeration order. */
  datatype Effect = None | Rainbow | RainbowCycle | LaserScanner

  const EffectStringNone: string := "none"
  const EffectStringRainbow: string := "rainbow"
  const EffectStringRainbowCycle: string := "rainbowCycle"
  const EffectStringLaserScanner: string := "laserScanner"

  /** The token table, indexed by effect value. */
  const StringRepresentations: seq<string> :=
    [EffectStringNone, EffectStringRainbow, EffectStringRainbowCycle, EffectStringLaserScanner]

  /** The numeric value of an effect in the enumeration. */
  function Ordinal(e: Effect): (n: nat)
    ensures n < |StringRepresentations|
  {
    match e
    case None => 0
    case Rainbow => 1
    case RainbowCycle => 2
    case LaserScanner => 3
  }

  /** The string token of an effect, looked up in the table by its value. */
  function EffectToStringRepresentation(e: Effect): (s: string)
    ensures s in StringRepresentations
    ensures |s| > 0
  {
    StringRepresentations[Ordinal(e)]
  }

  /** The effect a token names; any string not exactly one of "rainbow",
      "rainbowCycle" or "laserScanner" (compared case-sensitively) is `None`. */
  function EffectFromStringRepresentation(s: string): (e: Effect)
    ensures e == Rainbow <==> s == "rainbow"
    ensures e == RainbowCycle <==> s == "rainbowCycle"
    ensures e == LaserScanner <==> s == "laserScanner"
    ensures e == None <==> s != "rainbow" && s != "rainbowCycle" && s != "laserScanner"
  {
    if s == EffectStringRainbow then Rainbow
    else if s == EffectStringRainbowCycle then RainbowCycle
    else if s == EffectStringLaserScanner then LaserScanner
    else None
  }

  /** The tokens of the four effects, in enumeration order. */
  lemma EffectTokens()
    ensures EffectToStringRepresentation(None) == "none"
    ensures EffectToStringRepresentation(Rainbow) == "rainbow"
    ensures EffectToStringRepresentation(RainbowCycle) == "rainbowCycle"
    ensures EffectToStringRepresentation(LaserScanner) == "laserScanner"
  {
  }

  /** Distinct effects have distinct tokens. */
  lemma EffectToStringInjective(a: Effect, b: Effect)
    ensures EffectToStringRepresentation(a) == EffectToStringRepresentation(b) ==> a == b
  {
  }

  /** Reading back the token of an effect gives that effect; for `None` it is
      the fallback that gives it, since "none" is not compared against. */
  lemma EffectRoundTrip(e: Effect)
    ensures EffectFromStringRepresentation(EffectToStringRepresentation(e)) == e
  {
  }

  /** Writing out the effect read from a string gives that string back exactly
      when the string is one of the four tokens. */
  lemma StringRoundTripIff(s: string)
    ensures EffectToStringRepresentation(EffectFromStringRepresentation(s)) == s
        <==> s in StringRepresentations
  {
  }

  /** Unrecognised, differently cased, empty and prefix strings all fall back
      to `None`. */
  lemma EffectFallbackExamples()
    ensures EffectFromStringRepresentation("none") == None
    ensures EffectFromStringRepresentation("unknown-token") == None
    ensures EffectFromStringRepresentation("") == None
    ensures EffectFromStringRepresentation("Rainbow") == None
    ensures EffectFromStringRepresentation("RAINBOW") == None
    ensures EffectFromStringRepresentation("rainbowcycle") == None
    ensures EffectFromStringRepresentation("laser") == None
  {
  }
}
