# Vibelight firmware types: colour and effect codecs

This project models the data types header of the Vibelight RGBW LED controller
firmware (`src/Firmware/sketches/Production/types.h`) in Dafny and proves what
its two codecs do:

- **Colour ↔ 32-bit word.** A `Color` has four 8-bit channels declared as red,
  green, blue, white. `colorToInteger` packs them into a word laid out
  white, red, green, blue from the most significant byte down.
  `integerToColor` unpacks a word with a positional aggregate initialiser.
  Because the fields are declared red first, the unpacker puts the top byte in
  red, not white. The two functions are therefore not inverses. A round trip
  moves every channel one field along, and unpacking then packing rotates the
  word right by one byte. The model follows the code: `Types.IntegerToColor`
  is the unpacker as written.
- **Effect ↔ string.** `Effect` is a four-valued enumeration. The writer looks
  the effect up in a table of four tokens. The reader compares its argument
  with three of them and falls back to `NONE` for any other string, including
  `"none"` itself.

Channels are `bv8`, words are `bv32`, and C's shifts, masks and ORs are the
same operations on bit-vectors. The unpacker's narrowing from `uint32_t` to
`uint8_t` is a checked `as bv8` conversion, which the `& 0xFF` mask always
satisfies. C strings are Dafny `string`s and `strcmp(a, b) == 0` is `a == b`.

The header's doc comments (types.h:18-19 and 25-26) call both functions
"WRGB", which describes them as an inverse pair. The code does not do that. The model
follows the code and records the gap under "## Findings", with the intended
WRGB unpacker beside it.

All definitions are in `types.dfy`, module `Types`.

## Model

| member | source | states |
|---|---|---|
| `Types.WordOf` | src/Firmware/sketches/Production/types.h:22 | the shift-and-or packing puts its first argument in byte 3, the second in byte 2, the third in byte 1 and the last in byte 0 |
| `Types.ColorToInteger` | src/Firmware/sketches/Production/types.h:21-23 | white is bits 24–31 of the word, red bits 16–23, green bits 8–15 and blue bits 0–7; extracting each byte gives back that channel |
| `Types.ColorToIntegerValue` | src/Firmware/sketches/Production/types.h:21-23 | as an unsigned number the word equals white·2^24 + red·2^16 + green·2^8 + blue, so it never exceeds 0xFFFFFFFF |
| `Types.ColorToIntegerExtremes` | src/Firmware/sketches/Production/types.h:22 | all-zero channels pack to 0 and all-255 channels pack to 0xFFFFFFFF |
| `Types.ColorToIntegerInjective` | src/Firmware/sketches/Production/types.h:21-23 | two colours that pack to the same word are the same colour |
| `Types.IntegerToColor` | src/Firmware/sketches/Production/types.h:11-35 | the positional initialiser gives red = byte 3, green = byte 2, blue = byte 1 and white = byte 0 of the word, each an 8-bit value |
| `Types.ColorRoundTrip` | src/Firmware/sketches/Production/types.h:21-35 | unpacking a packed colour gives red = old white, green = old red, blue = old green, white = old blue |
| `Types.ColorRoundTripIdentityIff` | src/Firmware/sketches/Production/types.h:21-35 | the colour round trip returns the colour exactly when all four channels are equal |
| `Types.WordRoundTrip` | src/Firmware/sketches/Production/types.h:21-35 | packing an unpacked word rotates it right by 8 bits: new byte 3 = old byte 0, byte 2 = old byte 3, byte 1 = old byte 2, byte 0 = old byte 1 |
| `Types.RoundTripsPeriod` | src/Firmware/sketches/Production/types.h:21-35 | any multiple of four colour round trips gives back the original colour |
| `Types.ColorRoundTripCounterexample` | src/Firmware/sketches/Production/types.h:28-35 | pure red (255, 0, 0, 0) comes back from a round trip as pure green, so the round trip is not the identity |
| `Types.IntegerToColorWrgb` | src/Firmware/sketches/Production/types.h:25-35 | the unpacker the WRGB comment describes: white = byte 3, red = byte 2, green = byte 1, blue = byte 0 |
| `Types.WrgbRoundTrips` | src/Firmware/sketches/Production/types.h:18-35 | with the WRGB unpacker, packing and unpacking are inverses in both directions, so packing is a bijection between colours and words |
| `Types.Ordinal` | src/Firmware/sketches/Production/types.h:37-42 | every effect's enumeration value is below 4, so the lookup `stringRepresentations[effect]` indexes the four-entry table in range for every effect |
| `Types.EffectToStringRepresentation` | src/Firmware/sketches/Production/types.h:44-58 | every effect has a non-empty token, taken from the four-entry table |
| `Types.EffectTokens` | src/Firmware/sketches/Production/types.h:37-58 | in enumeration order the effects map to "none", "rainbow", "rainbowCycle" and "laserScanner" |
| `Types.EffectToStringInjective` | src/Firmware/sketches/Production/types.h:44-58 | distinct effects have distinct tokens |
| `Types.EffectFromStringRepresentation` | src/Firmware/sketches/Production/types.h:60-74 | the result is RAINBOW, RAINBOW_CYCLE or LASERSCANNER exactly when the string equals that token, and NONE exactly when it equals none of the three |
| `Types.EffectRoundTrip` | src/Firmware/sketches/Production/types.h:44-74 | reading back the token of any effect gives that effect; NONE comes from the fallback branch |
| `Types.StringRoundTripIff` | src/Firmware/sketches/Production/types.h:44-74 | writing out the effect read from a string gives back that string exactly when it is one of the four tokens |
| `Types.EffectFallbackExamples` | src/Firmware/sketches/Production/types.h:63-71 | "none", an unknown token, the empty string, other capitalisations and prefixes of tokens all read as NONE |

## Findings

| source | as written | input that shows it | evidently intended | confidence | as-written member | corrected member |
|---|---|---|---|---|---|---|
| src/Firmware/sketches/Production/types.h:28-35 | the aggregate fills the fields in declaration order, so the top byte goes to red and the bottom byte to white | the colour red 255, green 0, blue 0, white 0 packs to 0xFF0000 and unpacks to green 255, all other channels 0 | a WRGB unpacker that inverts colorToInteger: white = byte 3, red = byte 2, green = byte 1, blue = byte 0 | not executed; high, since both doc comments say WRGB | `Types.ColorRoundTripCounterexample` | `Types.WrgbRoundTrips` |

## Left out

- `config-sample.h` holds only compile-time constants: credentials, MQTT topics, pins, LED count and limits. No code enforces those values, so there is nothing to prove about them.
- `tests/getColorValueForStepIndex_test.py` checks a colour interpolation function that is not part of this model. It also uses floating-point division.
- `LEDType`, `LEDCapability` and `EffectDirection` are declared as datatypes only. The header gives them no behaviour.
- Indexing the token table with an out-of-range integer cast to `Effect` is undefined behaviour in C. The `Effect` datatype rules it out.
- The writer returns a pointer to a static string literal, and the reader takes a `const char*` on which `strcmp` is undefined when it is NULL. The model returns and takes string values, so a NULL argument cannot occur and pointers are not modelled.
- `Types.EffectFromStringRepresentation` compares whole Dafny strings. `strcmp` stops at the first NUL, so a C caller cannot pass a string with an embedded NUL. The model does not represent NUL termination.
- "The word fits in 32 bits" holds by the `bv32` type. `Types.ColorToIntegerValue` also states its numeric bound.
