/**
 * The unit converters `convert_time_units`, `convert_accel_units` and
 * `convert_length_units`. Each quantity has a table giving, per unit name, how
 * many standard units (seconds, m/s^2, metres) one such unit is worth, and a
 * second table holding the reciprocal factors. A value is converted by
 * multiplying it into the standard unit with the first table and out of it
 * with the second. Unit names are looked up by exact match; a name missing from
 * a table is a failed lookup (Python's `KeyError`), reported for the input unit
 * before the output unit is looked up.
 */
module UnitConversion {

  datatype ConversionError =
    | UnknownUnit(unit: string)  // dictionary lookup of a unit name that is not in the table
    | ZeroDivision               // building the reciprocal table divided by zero

  /** The outcome of a conversion: the converted value, or the error that was raised. */
  datatype Result = Ok(value: real) | Err(error: ConversionError)

  /**
   * The two tables of one quantity are inverse to each other: they list the
   * same units, and each unit's two factors multiply to one.
   */
  ghost predicate Reciprocal(toStandard: map<string, real>, fromStandard: map<string, real>) {
    forall u :: (u in toStandard <==> u in fromStandard)
             && (u in toStandard ==> toStandard[u] * fromStandard[u] == 1.0)
  }

  /** Hub conversion: into the standard unit with one table, out of it with the other. */
  function Convert(toStandard: map<string, real>, fromStandard: map<string, real>,
                   val: real, inputUnit: string, outputUnit: string): (r: Result)
    ensures r.Ok? <==> inputUnit in toStandard && outputUnit in fromStandard
    ensures inputUnit !in toStandard ==> r == Err(UnknownUnit(inputUnit))
    ensures inputUnit in toStandard && outputUnit !in fromStandard ==> r == Err(UnknownUnit(outputUnit))
  {
    if inputUnit !in toStandard then Err(UnknownUnit(inputUnit))
    else
      var standard := val * toStandard[inputUnit];
      if outputUnit !in fromStandard then Err(UnknownUnit(outputUnit))
      else Ok(standard * fromStandard[outputUnit])
  }

  /**
   * A successful conversion denotes the same physical amount: the result,
   * counted in standard units, equals the input counted in standard units.
   */
  lemma ConvertPreservesAmount(toStandard: map<string, real>, fromStandard: map<string, real>,
                               val: real, inputUnit: string, outputUnit: string)
    requires Reciprocal(toStandard, fromStandard)
    ensures var r := Convert(toStandard, fromStandard, val, inputUnit, outputUnit);
      r.Ok? ==> r.value * toStandard[outputUnit] == val * toStandard[inputUnit]
  {
  }

  /** Converting a known unit to itself returns the value unchanged. */
  lemma ConvertIdentity(toStandard: map<string, real>, fromStandard: map<string, real>, val: real, u: string)
    requires Reciprocal(toStandard, fromStandard) && u in toStandard
    ensures Convert(toStandard, fromStandard, val, u, u) == Ok(val)
  {
  }

  /** Converting through any known unit and on to a third is the direct conversion. */
  lemma ConvertCompose(toStandard: map<string, real>, fromStandard: map<string, real>,
                       val: real, a: string, b: string, c: string)
    requires Reciprocal(toStandard, fromStandard) && a in toStandard && b in toStandard && c in toStandard
    ensures Convert(toStandard, fromStandard, Convert(toStandard, fromStandard, val, a, b).value, b, c)
         == Convert(toStandard, fromStandard, val, a, c)
  {
  }

  /** Converting from a to b and back to a gives the original value. */
  lemma ConvertRoundTrip(toStandard: map<string, real>, fromStandard: map<string, real>,
                         val: real, a: string, b: string)
    requires Reciprocal(toStandard, fromStandard) && a in toStandard && b in toStandard
    ensures Convert(toStandard, fromStandard, Convert(toStandard, fromStandard, val, a, b).value, b, a)
         == Ok(val)
  {
  }

  /**
   * The result is the value times a factor that depends only on the two units,
   * so conversion is linear: it commutes with scaling and with addition.
   */
  lemma ConvertLinear(toStandard: map<string, real>, fromStandard: map<string, real>,
                      k: real, v: real, w: real, a: string, b: string)
    requires a in toStandard && b in fromStandard
    ensures Convert(toStandard, fromStandard, k * v, a, b)
         == Ok(k * Convert(toStandard, fromStandard, v, a, b).value)
    ensures Convert(toStandard, fromStandard, v + w, a, b)
         == Ok(Convert(toStandard, fromStandard, v, a, b).value + Convert(toStandard, fromStandard, w, a, b).value)
  {
  }

  // ---------------------------------------------------------------- time

  const TimeUnits: set<string> := {"min", "hour", "s"}

  /** Seconds per unit. */
  const TimeToStandard: map<string, real> := map["min" := 60.0, "hour" := 3600.0, "s" := 1.0]

  /** Units per second. */
  const StandardToTime: map<string, real> :=
    map["min" := 1.0 / TimeToStandard["min"], "hour" := 1.0 / TimeToStandard["hour"], "s" := TimeToStandard["s"]]

  /** The time tables list the same three units, are reciprocal, and the second is their only factor-one unit. */
  lemma TimeTables()
    ensures TimeToStandard.Keys == StandardToTime.Keys == TimeUnits
    ensures Reciprocal(TimeToStandard, StandardToTime)
    ensures forall u :: u in TimeUnits ==> (TimeToStandard[u] == 1.0 <==> u == "s")
    ensures forall u :: u in TimeUnits ==> (StandardToTime[u] == 1.0 <==> u == "s")
  {
  }

  /** `convert_time_units`: convert a duration between minutes, hours and seconds. */
  function ConvertTimeUnits(val: real, inputUnit: string, outputUnit: string): (r: Result)
    ensures r.Ok? <==> inputUnit in TimeUnits && outputUnit in TimeUnits
    ensures inputUnit !in TimeUnits ==> r == Err(UnknownUnit(inputUnit))
    ensures inputUnit in TimeUnits && outputUnit !in TimeUnits ==> r == Err(UnknownUnit(outputUnit))
    ensures r.Ok? ==> r.value * TimeToStandard[outputUnit] == val * TimeToStandard[inputUnit]
  {
    TimeTables();
    ConvertPreservesAmount(TimeToStandard, StandardToTime, val, inputUnit, outputUnit);
    Convert(TimeToStandard, StandardToTime, val, inputUnit, outputUnit)
  }

  /** Identity, round trip, composition through seconds and linearity for time. */
  lemma TimeConversionLaws(v: real, k: real, a: string, b: string, c: string)
    requires a in TimeUnits && b in TimeUnits && c in TimeUnits
    ensures ConvertTimeUnits(v, a, a) == Ok(v)
    ensures ConvertTimeUnits(ConvertTimeUnits(v, a, b).value, b, a) == Ok(v)
    ensures ConvertTimeUnits(ConvertTimeUnits(v, a, b).value, b, c) == ConvertTimeUnits(v, a, c)
    ensures ConvertTimeUnits(k * v, a, b) == Ok(k * ConvertTimeUnits(v, a, b).value)
    ensures ConvertTimeUnits(0.0, a, b) == Ok(0.0)
    ensures ConvertTimeUnits(-v, a, b) == Ok(-ConvertTimeUnits(v, a, b).value)
  {
    TimeTables();
    ConvertIdentity(TimeToStandard, StandardToTime, v, a);
    ConvertRoundTrip(TimeToStandard, StandardToTime, v, a, b);
    ConvertCompose(TimeToStandard, StandardToTime, v, a, b, c);
    ConvertLinear(TimeToStandard, StandardToTime, k, v, v, a, b);
    ConvertLinear(TimeToStandard, StandardToTime, 0.0, v, v, a, b);
    ConvertLinear(TimeToStandard, StandardToTime, -1.0, v, v, a, b);
  }

  /** Concrete time conversions, and the failed lookup of an unknown unit. */
  lemma TimeExamples(v: real, u: string)
    ensures ConvertTimeUnits(v, "hour", "min") == Ok(60.0 * v)
    ensures ConvertTimeUnits(v, "s", "min") == Ok(v / 60.0)
    ensures ConvertTimeUnits(v, "hour", "s") == Ok(3600.0 * v)
    ensures ConvertTimeUnits(v, "day", u) == Err(UnknownUnit("day"))
    ensures ConvertTimeUnits(v, "s", "day") == Err(UnknownUnit("day"))
  {
  }

  // ---------------------------------------------------------------- acceleration

  const AccelUnits: set<string> := {"g", "m/s^2"}

  /** m/s^2 per unit; `gravity` is the standard gravity constant of the surrounding system. */
  function AccelToStandard(gravity: real): (table: map<string, real>) {
    map["g" := gravity, "m/s^2" := 1.0]
  }

  /** Units per m/s^2. */
  function StandardToAccel(gravity: real): (table: map<string, real>)
    requires gravity != 0.0
  {
    map["g" := 1.0 / gravity, "m/s^2" := 1.0]
  }

  /** For a nonzero gravity constant the acceleration tables list the same two units and are reciprocal. */
  lemma AccelTables(gravity: real)
    requires gravity != 0.0
    ensures AccelToStandard(gravity).Keys == StandardToAccel(gravity).Keys == AccelUnits
    ensures Reciprocal(AccelToStandard(gravity), StandardToAccel(gravity))
    ensures AccelToStandard(gravity)["m/s^2"] == StandardToAccel(gravity)["m/s^2"] == 1.0
  {
  }

  /**
   * `convert_accel_units`: convert an acceleration between g and m/s^2. The
   * reciprocal table is built before any lookup, so a zero gravity constant
   * fails whatever the units are.
   */
  function ConvertAccelUnits(gravity: real, val: real, inputUnit: string, outputUnit: string): (r: Result)
    ensures gravity == 0.0 ==> r == Err(ZeroDivision)
    ensures gravity != 0.0 ==> (r.Ok? <==> inputUnit in AccelUnits && outputUnit in AccelUnits)
    ensures gravity != 0.0 && inputUnit !in AccelUnits ==> r == Err(UnknownUnit(inputUnit))
    ensures gravity != 0.0 && inputUnit in AccelUnits && outputUnit !in AccelUnits ==> r == Err(UnknownUnit(outputUnit))
    ensures r.Ok? ==> r.value * AccelToStandard(gravity)[outputUnit] == val * AccelToStandard(gravity)[inputUnit]
  {
    if gravity == 0.0 then Err(ZeroDivision)
    else
      AccelTables(gravity);
      ConvertPreservesAmount(AccelToStandard(gravity), StandardToAccel(gravity), val, inputUnit, outputUnit);
      Convert(AccelToStandard(gravity), StandardToAccel(gravity), val, inputUnit, outputUnit)
  }

  /** Identity, round trip, composition through m/s^2 and linearity for acceleration. */
  lemma AccelConversionLaws(gravity: real, v: real, k: real, a: string, b: string, c: string)
    requires gravity != 0.0 && a in AccelUnits && b in AccelUnits && c in AccelUnits
    ensures ConvertAccelUnits(gravity, v, a, a) == Ok(v)
    ensures ConvertAccelUnits(gravity, ConvertAccelUnits(gravity, v, a, b).value, b, a) == Ok(v)
    ensures ConvertAccelUnits(gravity, ConvertAccelUnits(gravity, v, a, b).value, b, c) == ConvertAccelUnits(gravity, v, a, c)
    ensures ConvertAccelUnits(gravity, k * v, a, b) == Ok(k * ConvertAccelUnits(gravity, v, a, b).value)
    ensures ConvertAccelUnits(gravity, 0.0, a, b) == Ok(0.0)
    ensures ConvertAccelUnits(gravity, -v, a, b) == Ok(-ConvertAccelUnits(gravity, v, a, b).value)
  {
    var t, f := AccelToStandard(gravity), StandardToAccel(gravity);
    AccelTables(gravity);
    ConvertIdentity(t, f, v, a);
    ConvertRoundTrip(t, f, v, a, b);
    ConvertCompose(t, f, v, a, b, c);
    ConvertLinear(t, f, k, v, v, a, b);
    ConvertLinear(t, f, 0.0, v, v, a, b);
    ConvertLinear(t, f, -1.0, v, v, a, b);
  }

  /** Concrete acceleration conversions, and the failed lookups. */
  lemma AccelExamples(gravity: real, v: real, u: string)
    requires gravity != 0.0
    ensures ConvertAccelUnits(gravity, v, "g", "m/s^2") == Ok(v * gravity)
    ensures ConvertAccelUnits(gravity, v, "m/s^2", "g") == Ok(v / gravity)
    ensures ConvertAccelUnits(gravity, v, "ft/s^2", u) == Err(UnknownUnit("ft/s^2"))
    ensures ConvertAccelUnits(gravity, v, "g", "G") == Err(UnknownUnit("G"))
  {
  }

  // ---------------------------------------------------------------- length

  const LengthUnits: set<string> := {"cm", "mm", "m"}

  /** Metres per unit. */
  const LengthToStandard: map<string, real> := map["cm" := 0.01, "mm" := 0.001, "m" := 1.0]

  /** Units per metre. */
  const StandardToLength: map<string, real> :=
    map["cm" := 1.0 / LengthToStandard["cm"], "mm" := 1.0 / LengthToStandard["mm"], "m" := 1.0 / LengthToStandard["m"]]

  /** The length tables list the same three units, are reciprocal, and the metre is their only factor-one unit. */
  lemma LengthTables()
    ensures LengthToStandard.Keys == StandardToLength.Keys == LengthUnits
    ensures Reciprocal(LengthToStandard, StandardToLength)
    ensures forall u :: u in LengthUnits ==> (LengthToStandard[u] == 1.0 <==> u == "m")
    ensures forall u :: u in LengthUnits ==> (StandardToLength[u] == 1.0 <==> u == "m")
  {
  }

  /** `convert_length_units`: convert a length between centimetres, millimetres and metres. */
  function ConvertLengthUnits(val: real, inputUnit: string, outputUnit: string): (r: Result)
    ensures r.Ok? <==> inputUnit in LengthUnits && outputUnit in LengthUnits
    ensures inputUnit !in LengthUnits ==> r == Err(UnknownUnit(inputUnit))
    ensures inputUnit in LengthUnits && outputUnit !in LengthUnits ==> r == Err(UnknownUnit(outputUnit))
    ensures r.Ok? ==> r.value * LengthToStandard[outputUnit] == val * LengthToStandard[inputUnit]
  {
    LengthTables();
    ConvertPreservesAmount(LengthToStandard, StandardToLength, val, inputUnit, outputUnit);
    Convert(LengthToStandard, StandardToLength, val, inputUnit, outputUnit)
  }

  /** Identity, round trip, composition through metres and linearity for length. */
  lemma LengthConversionLaws(v: real, k: real, a: string, b: string, c: string)
    requires a in LengthUnits && b in LengthUnits && c in LengthUnits
    ensures ConvertLengthUnits(v, a, a) == Ok(v)
    ensures ConvertLengthUnits(ConvertLengthUnits(v, a, b).value, b, a) == Ok(v)
    ensures ConvertLengthUnits(ConvertLengthUnits(v, a, b).value, b, c) == ConvertLengthUnits(v, a, c)
    ensures ConvertLengthUnits(k * v, a, b) == Ok(k * ConvertLengthUnits(v, a, b).value)
    ensures ConvertLengthUnits(0.0, a, b) == Ok(0.0)
    ensures ConvertLengthUnits(-v, a, b) == Ok(-ConvertLengthUnits(v, a, b).value)
  {
    LengthTables();
    ConvertIdentity(LengthToStandard, StandardToLength, v, a);
    ConvertRoundTrip(LengthToStandard, StandardToLength, v, a, b);
    ConvertCompose(LengthToStandard, StandardToLength, v, a, b, c);
    ConvertLinear(LengthToStandard, StandardToLength, k, v, v, a, b);
    ConvertLinear(LengthToStandard, StandardToLength, 0.0, v, v, a, b);
    ConvertLinear(LengthToStandard, StandardToLength, -1.0, v, v, a, b);
  }

  /** Concrete length conversions, and the failed lookup of an unknown unit. */
  lemma LengthExamples(v: real, u: string)
    ensures ConvertLengthUnits(v, "cm", "m") == Ok(v / 100.0)
    ensures ConvertLengthUnits(v, "m", "mm") == Ok(1000.0 * v)
    ensures ConvertLengthUnits(v, "mm", "cm") == Ok(v / 10.0)
    ensures ConvertLengthUnits(v, "km", u) == Err(UnknownUnit("km"))
    ensures ConvertLengthUnits(v, "m", "km") == Err(UnknownUnit("km"))
  {
  }
}
