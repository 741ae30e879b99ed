/**
 * The viewer's pure arithmetic and gating: the unit factor, the wax weight,
 * the metrics refresh, and the file handler that accepts only `.stl` names
 * and loads binary STL through the parser. Rendering, the camera and the
 * snapshot are not modelled.
 */
module Viewer {
  import opened Wrappers
  import opened Text
  import opened Mesh
  import opened StlBinary

  /** Grams per cubic centimetre of casting wax. */
  const WaxDensity: real := 0.8

  const NeedStlStatus: string := "Нужен STL‑файл (binary или ASCII)."
  const ReadFailedStatus: string := "Не удалось прочитать файл."

  /**
   * `UNIT_SCALE[unit] || 1`: the factor from cubed model units to cm³. A
   * model in millimetres has its volume in mm³, of which 1000 make a cm³;
   * every other unit takes the factor 1.
   */
  function UnitScale(unit: string): (k: real)
    ensures k > 0.0
    ensures unit == "mm" ==> 1000.0 * k == 1.0
    ensures unit != "mm" ==> k == 1.0
  {
    if unit == "mm" then 0.001 else 1.0
  }

  /** What `setMetrics` shows, before formatting to two decimals. */
  datatype Metrics = Metrics(volumeCm3: real, weight: real)

  /** `setMetrics`: the weight is the wax density times the volume. */
  function SetMetrics(volumeCm3: real): (m: Metrics)
    ensures m.volumeCm3 == volumeCm3
    ensures m.weight == WaxDensity * m.volumeCm3
  {
    Metrics(volumeCm3, volumeCm3 * WaxDensity)
  }

  /**
   * `updateMetricsFromGeometry`: before any model is loaded nothing is
   * shown; afterwards the raw volume is scaled by the unit factor.
   */
  function UpdateMetrics(rawVolume: Option<real>, unit: string): (m: Option<Metrics>)
    ensures m.Some? <==> rawVolume.Some?
    ensures m.Some? ==> m.value.volumeCm3 == rawVolume.value * UnitScale(unit)
    ensures m.Some? ==> m.value.weight == WaxDensity * m.value.volumeCm3
  {
    match rawVolume
    case None => None
    case Some(v) => Some(SetMetrics(v * UnitScale(unit)))
  }

  /** A non-negative volume shows a non-negative volume and a weight no larger than it. */
  lemma MetricsNonNegative(rawVolume: real, unit: string)
    requires rawVolume >= 0.0
    ensures UpdateMetrics(Some(rawVolume), unit).value.volumeCm3 >= 0.0
    ensures 0.0 <= UpdateMetrics(Some(rawVolume), unit).value.weight <= UpdateMetrics(Some(rawVolume), unit).value.volumeCm3
  {
  }

  /**
   * The same object drawn in millimetres (every coordinate ten times its
   * value in centimetres) and viewed with the "mm" unit shows exactly what
   * the centimetre drawing shows with "cm": the 0.001 factor is the
   * mm³-to-cm³ conversion.
   */
  lemma SameObjectSameMetrics(tris: seq<Triangle>)
    ensures UpdateMetrics(Some(Volume(ScaleMesh(tris, MmPerCm))), "mm") == UpdateMetrics(Some(Volume(tris)), "cm")
  {
    VolumeInMillimetres(tris);
    assert "mm" != "cm";
  }

  /** A unit missing from the table is treated as centimetres. */
  lemma UnknownUnitIsCentimetres(rawVolume: Option<real>, unit: string)
    requires unit != "mm" && unit != "cm"
    ensures UpdateMetrics(rawVolume, unit) == UpdateMetrics(rawVolume, "cm")
  {
    assert "mm" != "cm";
  }

  /** The `.stl` test of `handleFile`: the lower-cased name ends with ".stl". */
  predicate HasStlExtension(name: string)
  {
    EndsWith(ToLower(name), ".stl")
  }

  /** A name passes exactly when its last four characters are '.', then s, t, l in either case. */
  lemma StlExtensionCharacters(name: string)
    ensures HasStlExtension(name) <==>
      |name| >= 4 && name[|name| - 4] == '.' &&
      name[|name| - 3] in "sS" && name[|name| - 2] in "tT" && name[|name| - 1] in "lL"
  {
    var n := |name|;
    if n >= 4 {
      var tail := ToLower(name)[n - 4..];
      assert tail == [LowerChar(name[n - 4]), LowerChar(name[n - 3]), LowerChar(name[n - 2]), LowerChar(name[n - 1])];
      assert HasStlExtension(name) <==> tail == ".stl";
    }
  }

  /** A file as the browser hands it over; `contents` is None when reading it fails. */
  datatype File = File(name: string, contents: Option<seq<Byte>>)

  /** The model state after a binary load: positions, raw volume and the metrics shown. */
  datatype Model = Model(positions: seq<real>, rawVolume: real, metrics: Metrics)

  /**
   * What `handleFile` leaves on screen. `StatusOnly` changes the status line
   * alone; every other non-empty outcome has already shown the file name.
   */
  datatype Outcome =
    | NoFile
    | StatusOnly(message: string)
    | ReadFailed(fileName: string, message: string)
    | BinaryLoaded(fileName: string, model: Model)
    | AsciiHandedOff(fileName: string)

  /**
   * `handleFile` followed by `loadGeometry`. Without a file nothing happens;
   * a name without the `.stl` extension only sets a status; an accepted
   * name is shown before the read, so a read failure leaves it on screen
   * next to the failure status; a binary buffer is parsed and its metrics shown
   * in the current unit; anything else goes to the external ASCII loader.
   */
  method HandleFile(dec: F32Decoder, file: Option<File>, unit: string) returns (o: Outcome)
    ensures file.None? ==> o == NoFile
    ensures file.Some? && !HasStlExtension(file.value.name) ==> o == StatusOnly(NeedStlStatus)
    ensures o.StatusOnly? <==> file.Some? && !HasStlExtension(file.value.name)
    ensures (o.BinaryLoaded? || o.AsciiHandedOff? || o.ReadFailed?) ==>
      file.Some? && HasStlExtension(file.value.name) && o.fileName == file.value.name
    ensures file.Some? && HasStlExtension(file.value.name) && file.value.contents.None? ==>
      o == ReadFailed(file.value.name, ReadFailedStatus)
    ensures file.Some? && HasStlExtension(file.value.name) && file.value.contents.Some? ==>
      var buf := file.value.contents.value;
      if IsBinarySTL(buf) then
        o.BinaryLoaded? && o.fileName == file.value.name &&
        o.model.positions == Positions(Triangles(dec, buf)) &&
        o.model.rawVolume == Volume(Triangles(dec, buf)) &&
        Some(o.model.metrics) == UpdateMetrics(Some(o.model.rawVolume), unit)
      else
        o == AsciiHandedOff(file.value.name)
  {
    if file.None? {
      return NoFile;
    }
    var f := file.value;
    if !EndsWith(ToLower(f.name), ".stl") {
      return StatusOnly(NeedStlStatus);
    }
    if f.contents.None? {
      return ReadFailed(f.name, ReadFailedStatus);
    }
    var buf := f.contents.value;
    if IsBinarySTL(buf) {
      var positions, volume := ParseBinarySTL(dec, buf);
      var shown := UpdateMetrics(Some(volume), unit);
      return BinaryLoaded(f.name, Model(positions, volume, shown.value));
    }
    return AsciiHandedOff(f.name);
  }
}
