# General-purpose helpers of BlueDrop_Analysis_Lib, in Dafny

This project models the pure part of `lib/general_functions/general_function.py`:

- **`apply_mask_to_list`** (`mask.dfy`, module `MaskFilter`): values and a boolean
  mask are paired position by position, as Python's `zip` does, so pairing stops
  at the shorter of the two. The values whose paired mask entry is true are kept,
  in their original order. `ApplyMask` is a recursive function over sequences.
  The lemmas say that it keeps exactly the right values. `IsSelection` is an
  independent description of the result: a strictly increasing list of the
  positions kept, which covers every paired position whose mask entry is true.
  `ApplyMaskCharacterised` proves that ApplyMask's result is the only sequence
  that fits that description.
- **The three unit converters** (`units.dfy`, module `UnitConversion`):
  `convert_time_units` (min, hour, s; via seconds), `convert_accel_units`
  (g, m/s^2; via m/s^2) and `convert_length_units` (cm, mm, m; via metres).
  Each quantity has two tables:
  - an input-to-standard table (`TimeToStandard`, `AccelToStandard`, `LengthToStandard`);
  - its reciprocal standard-to-output table (`StandardToTime`, `StandardToAccel`, `StandardToLength`).

  A conversion multiplies the value by the input unit's factor, then by the
  output unit's reciprocal factor (`Convert`). Unit names are strings, matched
  exactly. A name missing from a table is Python's `KeyError`, modelled as
  `Err(UnknownUnit(name))`. The input unit is looked up first, so it is the one
  reported when both are unknown.

  The meaning of a conversion is that the physical amount is preserved:
  `result * factor(output unit) == value * factor(input unit)`. For any pair of
  reciprocal tables, `ConvertIdentity`, `ConvertRoundTrip`, `ConvertCompose` and
  `ConvertLinear` prove identity, round trip, composition through the hub unit,
  and linearity. Each quantity then proves its tables reciprocal and gets these
  laws, plus its concrete conversions.

The gravity constant `GRAVITY_CONST` is defined in another module of the library,
`lib/general_functions/global_constants.py`, and that module is not part of this
model. So `ConvertAccelUnits` takes the constant as its first parameter,
`gravity`, and works for any real value of it. The Python builds the table
`standard_to_output`, which contains `1/GRAVITY_CONST`, before it looks up
either unit. So a zero constant raises `ZeroDivisionError` whatever the units
are. The model returns `Err(ZeroDivision)` in that case.

An unknown unit's error carries only the unit name, as the `KeyError` does. It
does not name the quantity.

## Model

| member | source | states |
|---|---|---|
| `MaskFilter.ApplyMask` | lib/general_functions/general_function.py:16-17 | The result is no longer than the values and no longer than the mask, because pairing stops at the shorter one. |
| `MaskFilter.ApplyMaskIsSelection` | lib/general_functions/general_function.py:16-17 | The result picks, in strictly increasing position order, values whose paired mask entry is true. Every paired position with a true mask entry is picked. |
| `MaskFilter.SelectionIsApplyMask` | lib/general_functions/general_function.py:16-17 | Any sequence that is such a selection equals the function's result, so the selection property determines the result. |
| `MaskFilter.ApplyMaskCharacterised` | lib/general_functions/general_function.py:16-17 | A sequence is the result if and only if it is a selection of the values by the mask, in order. |
| `MaskFilter.ApplyMaskMembership` | lib/general_functions/general_function.py:17 | A value occurs in the result if and only if it sits at a paired position whose mask entry is true. |
| `MaskFilter.ApplyMaskLength` | lib/general_functions/general_function.py:17 | The result has exactly as many elements as there are true entries among the paired mask positions. |
| `MaskFilter.ApplyMaskTruncates` | lib/general_functions/general_function.py:17 | Entries past the shorter input are ignored: masking the truncated inputs gives the same result. |
| `MaskFilter.ApplyMaskAllTrue` | lib/general_functions/general_function.py:17 | An all-true mask keeps the paired prefix. If it is at least as long as the values, the values come back unchanged. |
| `MaskFilter.ApplyMaskAllFalse` | lib/general_functions/general_function.py:17 | An all-false mask gives the empty list. |
| `MaskFilter.ApplyMaskAppend` | lib/general_functions/general_function.py:17 | Masking two concatenated, position-aligned pieces concatenates the results. |
| `UnitConversion.Convert` | lib/general_functions/general_function.py:31-92 | The conversion succeeds if and only if both units are in their tables. An unknown input unit is reported before the output unit is looked up. |
| `UnitConversion.ConvertPreservesAmount` | lib/general_functions/general_function.py:31-92 | With reciprocal tables, a successful conversion measures the same amount of the standard unit as the input. |
| `UnitConversion.ConvertIdentity` | lib/general_functions/general_function.py:31-92 | With reciprocal tables, converting a known unit to itself returns the value unchanged. |
| `UnitConversion.ConvertCompose` | lib/general_functions/general_function.py:31-92 | With reciprocal tables, converting a to b and then b to c equals converting a to c directly. |
| `UnitConversion.ConvertRoundTrip` | lib/general_functions/general_function.py:31-92 | With reciprocal tables, converting a to b and back to a returns the original value. |
| `UnitConversion.ConvertLinear` | lib/general_functions/general_function.py:31-92 | The result is the value times a factor that depends only on the units, so conversion commutes with scaling and with addition. |
| `UnitConversion.TimeTables` | lib/general_functions/general_function.py:34-44 | Both time tables list exactly min, hour and s, and they are reciprocal. The second is the only unit with factor 1, in both tables. |
| `UnitConversion.ConvertTimeUnits` | lib/general_functions/general_function.py:31-51 | Succeeds if and only if both units are time units, and names the unknown unit otherwise, input first. The result in seconds equals the input in seconds. |
| `UnitConversion.TimeConversionLaws` | lib/general_functions/general_function.py:47-49 | Time conversion obeys identity, round trip and composition through seconds. It is linear, maps 0 to 0 and preserves negation. |
| `UnitConversion.TimeExamples` | lib/general_functions/general_function.py:33-50 | hour to min multiplies by 60, s to min divides by 60, and hour to s multiplies by 3600. "day" is rejected as either unit. |
| `UnitConversion.AccelTables` | lib/general_functions/general_function.py:56-63 | For a nonzero gravity constant, both acceleration tables list exactly g and m/s^2 and are reciprocal. m/s^2 has factor 1 in both. |
| `UnitConversion.ConvertAccelUnits` | lib/general_functions/general_function.py:53-70 | A zero gravity constant fails with a division by zero whatever the units are. Otherwise the conversion succeeds if and only if both units are acceleration units, and it preserves the amount in m/s^2. |
| `UnitConversion.AccelConversionLaws` | lib/general_functions/general_function.py:66-68 | For a nonzero gravity constant, acceleration conversion obeys identity, round trip and composition through m/s^2. It is linear, maps 0 to 0 and preserves negation. |
| `UnitConversion.AccelExamples` | lib/general_functions/general_function.py:57-68 | g to m/s^2 multiplies by the gravity constant, and m/s^2 to g divides by it. Unknown unit names are rejected, input unit first, with exact-match lookup. |
| `UnitConversion.LengthTables` | lib/general_functions/general_function.py:75-84 | Both length tables list exactly cm, mm and m, and they are reciprocal. The metre is the only unit with factor 1, in both tables. |
| `UnitConversion.ConvertLengthUnits` | lib/general_functions/general_function.py:72-92 | Succeeds if and only if both units are length units, and names the unknown unit otherwise, input first. The result in metres equals the input in metres. |
| `UnitConversion.LengthConversionLaws` | lib/general_functions/general_function.py:87-90 | Length conversion obeys identity, round trip and composition through metres. It is linear, maps 0 to 0 and preserves negation. |
| `UnitConversion.LengthExamples` | lib/general_functions/general_function.py:75-90 | cm to m divides by 100, m to mm multiplies by 1000, and mm to cm divides by 10. "km" is rejected as either unit. |

## Left out

- `create_folder_if_not_exists` (lines 9-14): filesystem checks, directory creation and printing; pure I/O.
- `progress_bar` (lines 19-29): writes a formatted line to standard output; its percentage and ETA strings depend on float formatting.
- Floating point: values and factors are exact reals. IEEE-754 rounding is not modelled: `1/60.0` and `1/3600.0` (lines 41-42) and `1e-2` itself (line 76) are not exact binary fractions, so in Python results and round trips can be off in the last bit.
- Python's dynamic typing: the converters take reals and unit names as strings, and the mask takes booleans. Truthiness of non-boolean mask entries, and a non-string unit that raises some other error, are not modelled.
- The value of `GRAVITY_CONST`: `lib/general_functions/global_constants.py` is not part of this model, so the constant is a parameter.
- The unused imports of `numpy`, `pandas` and `shutil` (lines 2-4).
