/** The latitude-banded basal-melt forcing of the ocean-forcing script.

    A basal melt rate is given at a southern and a northern reference
    latitude. Both are converted to a mass flux with the density of ice, a
    line in latitude is fitted through the two reference points, and every
    grid cell gets the value of that line at its latitude, held constant
    south of the southern and north of the northern reference latitude.
    Optionally, land cells are set to zero. The same field is written into
    every time slice, together with an all-zero basal temperature field.

    The latitude of each cell (the inverse map projection of the grid) is an
    input of the model. */
module OceanForcing {
  import opened Wrappers

  /** Density of ice, kg m-3. */
  const IceDensity: real := 910.0

  /** The two mask codes the script does not treat as land; every other
      code is land and gets no melt. */
  const NonLandCode0: int := 0
  const NonLandCode3: int := 3

  /** A field over (y, x), row by row. */
  type Grid<T> = seq<seq<T>>

  /** The command-line options of the script. */
  datatype Options = Options(
    bmelt0: real,      // southern basal melt rate, m/yr
    bmelt1: real,      // northern basal melt rate, m/yr
    lat0: real,        // latitude of the southern rate
    lat1: real,        // latitude of the northern rate
    processMask: bool  // zero the flux on land
  )

  const DefaultOptions: Options := Options(228.0, 10.0, 69.0, 81.0, false)

  datatype Error =
    | DegenerateBand     // lat1 == lat0: the slope divides by zero
    | MissingMask        // masking requested but the file has no mask
    | MaskShapeMismatch  // the mask does not have the shape of the grid

  /** The line flux(lat) = a * lat + b. */
  datatype Line = Line(a: real, b: real) {
    function At(lat: real): real {
      a * lat + b
    }
  }

  /** The two reference points and the line fitted through them. */
  datatype Band = Band(lat0: real, lat1: real, flux0: real, flux1: real, line: Line)

  /** The band is well defined and its line passes through both points. */
  ghost predicate ValidBand(band: Band) {
    && band.lat0 != band.lat1
    && band.line.At(band.lat0) == band.flux0
    && band.line.At(band.lat1) == band.flux1
  }

  /** Converts a melt rate in m/yr into a mass flux in kg m-2 yr-1. */
  function MassFlux(rate: real): (flux: real)
    ensures rate == flux / IceDensity
  {
    rate * IceDensity
  }

  /** Fits the line through the two reference points: slope and intercept
      as the script computes them. The division by zero a degenerate band
      causes is an error. */
  function FitBand(o: Options): (r: Result<Band, Error>)
    ensures r.Failure? <==> o.lat0 == o.lat1
    ensures r.Failure? ==> r.error == DegenerateBand
    ensures r.Success? ==> ValidBand(r.value)
    ensures r.Success? ==> r.value.lat0 == o.lat0 && r.value.lat1 == o.lat1
    ensures r.Success? ==> r.value.flux0 == IceDensity * o.bmelt0
    ensures r.Success? ==> r.value.flux1 == IceDensity * o.bmelt1
  {
    if o.lat1 == o.lat0 then
      Failure(DegenerateBand)
    else
      var flux0 := MassFlux(o.bmelt0);
      var flux1 := MassFlux(o.bmelt1);
      var a := (flux1 - flux0) / (o.lat1 - o.lat0);
      var b := flux0 - a * o.lat0;
      assert a * o.lat1 + b == flux0 + a * (o.lat1 - o.lat0);
      Success(Band(o.lat0, o.lat1, flux0, flux1, Line(a, b)))
  }

  /** A mask value other than the two non-land codes is land. */
  predicate IsLand(m: int) {
    m != NonLandCode0 && m != NonLandCode3
  }

  /** The value one cell receives, in the order the script assigns it: the
      line, then the southern clamp, then the northern clamp, then the land
      override. */
  function CellFlux(band: Band, lat: real, land: bool): (v: real)
    ensures land ==> v == 0.0
    ensures ValidBand(band) && !land && lat > band.lat1 ==> v == band.flux1
    ensures ValidBand(band) && !land && lat < band.lat0 && lat <= band.lat1 ==> v == band.flux0
  {
    var v := band.line.At(lat);
    var v := if lat < band.lat0 then band.line.At(band.lat0) else v;
    var v := if lat > band.lat1 then band.line.At(band.lat1) else v;
    if land then 0.0 else v
  }

  /** Reference profile, stated on the fluxes rather than on the line:
      the northern flux north of lat1, the southern flux south of lat0,
      and linear interpolation between the two reference points inside. */
  function Profile(band: Band, lat: real): real
    requires band.lat0 != band.lat1
  {
    if lat > band.lat1 then band.flux1
    else if lat < band.lat0 then band.flux0
    else band.flux0 + (band.flux1 - band.flux0) * ((lat - band.lat0) / (band.lat1 - band.lat0))
  }

  /** A line through the two reference points is the interpolation
      between them, at every latitude. */
  lemma LineIsInterpolation(band: Band, lat: real)
    requires ValidBand(band)
    ensures band.line.At(lat)
         == band.flux0 + (band.flux1 - band.flux0) * ((lat - band.lat0) / (band.lat1 - band.lat0))
  {
    var a, d, x := band.line.a, band.lat1 - band.lat0, lat - band.lat0;
    assert band.flux1 - band.flux0 == a * d;
    assert (band.flux1 - band.flux0) / d == a;
    calc {
      (band.flux1 - band.flux0) * (x / d);
      (a * d) * (x / d);
      a * (d * (x / d));
      { assert d * (x / d) == x; }
      a * x;
    }
  }

  /** The script's assignment order agrees with the reference profile:
      the northern clamp wins whenever it applies (also when lat0 > lat1
      and both clamps apply), the southern clamp holds south of lat0
      otherwise, and inside the band the value is the interpolation. */
  lemma CellFluxIsProfile(band: Band, lat: real, land: bool)
    requires ValidBand(band)
    ensures CellFlux(band, lat, land) == if land then 0.0 else Profile(band, lat)
  {
    if !land && !(lat > band.lat1) && !(lat < band.lat0) {
      LineIsInterpolation(band, lat);
    }
  }

  /** Outside the band the value is clamped to the end value, exactly. */
  lemma ClampedOutsideBand(band: Band, lat: real)
    requires ValidBand(band) && band.lat0 < band.lat1
    ensures lat <= band.lat0 ==> CellFlux(band, lat, false) == band.flux0
    ensures lat >= band.lat1 ==> CellFlux(band, lat, false) == band.flux1
  {
    CellFluxIsProfile(band, lat, false);
  }

  /** When the reference latitudes are given in the wrong order, a cell
      between them meets both clamps and ends with the northern value. */
  lemma NorthClampWins(band: Band, lat: real)
    requires ValidBand(band) && band.lat1 < lat < band.lat0
    ensures CellFlux(band, lat, false) == band.flux1
  {
    CellFluxIsProfile(band, lat, false);
  }

  /** Scaling by a factor in [0, 1] keeps a value between zero and itself. */
  lemma ScaleByFraction(c: real, t: real)
    requires 0.0 <= t <= 1.0
    ensures 0.0 <= c ==> 0.0 <= c * t <= c
    ensures c <= 0.0 ==> c <= c * t <= 0.0
  {
  }

  /** A part of a positive whole is a fraction in [0, 1] of it. */
  lemma FractionOfWhole(x: real, d: real)
    requires 0.0 <= x <= d && 0.0 < d
    ensures 0.0 <= x / d <= 1.0
  {
  }

  /** With lat0 < lat1 every unmasked value lies between the two
      reference fluxes. */
  lemma CellFluxBetweenFluxes(band: Band, lat: real)
    requires ValidBand(band) && band.lat0 < band.lat1
    ensures var v := CellFlux(band, lat, false);
      (band.flux0 <= v <= band.flux1) || (band.flux1 <= v <= band.flux0)
  {
    CellFluxIsProfile(band, lat, false);
    var v := Profile(band, lat);
    if band.lat0 <= lat <= band.lat1 {
      var c, t := band.flux1 - band.flux0, (lat - band.lat0) / (band.lat1 - band.lat0);
      assert v == band.flux0 + c * t;
      FractionOfWhole(lat - band.lat0, band.lat1 - band.lat0);
      ScaleByFraction(c, t);
      if 0.0 <= c {
        assert band.flux0 <= v <= band.flux1;
      } else {
        assert band.flux1 <= v <= band.flux0;
      }
    }
  }

  /** The mask grid has the shape of the latitude grid. */
  predicate SameShape<T, U>(a: Grid<T>, b: Grid<U>) {
    |a| == |b| && forall i :: 0 <= i < |a| ==> |a[i]| == |b[i]|
  }

  /** f is the melt field of the band over the latitude grid: zero on land
      cells when a land mask is given, the reference profile elsewhere. */
  predicate IsMeltField(f: Grid<real>, band: Band, lat: Grid<real>, land: Option<Grid<int>>)
    requires band.lat0 != band.lat1
  {
    && SameShape(f, lat)
    && (land.Some? ==> SameShape(lat, land.value))
    && forall i, j :: 0 <= i < |lat| && 0 <= j < |lat[i]| ==>
         f[i][j] == if land.Some? && IsLand(land.value[i][j]) then 0.0 else Profile(band, lat[i][j])
  }

  /** z has the shape of the latitude grid and is zero everywhere. */
  predicate IsZeroField(z: Grid<real>, lat: Grid<real>) {
    && SameShape(z, lat)
    && forall i, j :: 0 <= i < |lat| && 0 <= j < |lat[i]| ==> z[i][j] == 0.0
  }

  /** The melt field over the grid, cell by cell as the script assigns it. */
  function MeltField(band: Band, lat: Grid<real>, land: Option<Grid<int>>): (f: Grid<real>)
    requires ValidBand(band)
    requires land.Some? ==> SameShape(lat, land.value)
    ensures IsMeltField(f, band, lat, land)
  {
    var f := seq(|lat|, i requires 0 <= i < |lat| =>
      seq(|lat[i]|, j requires 0 <= j < |lat[i]| =>
        CellFlux(band, lat[i][j], land.Some? && IsLand(land.value[i][j]))));
    forall i, j | 0 <= i < |lat| && 0 <= j < |lat[i]|
      ensures f[i][j] == if land.Some? && IsLand(land.value[i][j]) then 0.0 else Profile(band, lat[i][j])
    {
      CellFluxIsProfile(band, lat[i][j], land.Some? && IsLand(land.value[i][j]));
    }
    f
  }

  /** A grid of zeros of the shape of the latitude grid. */
  function Zeros(lat: Grid<real>): (z: Grid<real>)
    ensures IsZeroField(z, lat)
  {
    seq(|lat|, i requires 0 <= i < |lat| => seq(|lat[i]|, _ => 0.0))
  }

  /** What the script writes: one melt field and one temperature field per
      time slice. */
  datatype Forcing = Forcing(shelfbmassflux: seq<Grid<real>>, shelfbtemp: seq<Grid<real>>)

  /** The whole script on a grid of latitudes with nt time slices. The mask
      is the file's mask variable, if it has one; it is read only when
      masking is requested. A mask of the wrong shape is only noticed when
      it is applied inside the time loop, so with no time slices it is
      never an error. */
  function Synthesize(o: Options, lat: Grid<real>, mask: Option<Grid<int>>, nt: nat): (r: Result<Forcing, Error>)
    ensures r.Failure? <==>
      || o.lat0 == o.lat1
      || (o.processMask && (mask.None? || (nt > 0 && !SameShape(lat, mask.value))))
    ensures r.Failure? ==>
      r.error == if o.lat0 == o.lat1 then DegenerateBand
                 else if mask.None? then MissingMask
                 else MaskShapeMismatch
    ensures r.Success? ==> |r.value.shelfbmassflux| == nt && |r.value.shelfbtemp| == nt
    ensures r.Success? ==> forall t :: 0 <= t < nt ==>
      && IsMeltField(r.value.shelfbmassflux[t], FitBand(o).value, lat, if o.processMask then mask else None)
      && IsZeroField(r.value.shelfbtemp[t], lat)
    ensures r.Success? ==> forall t, u :: 0 <= t < nt && 0 <= u < nt ==>
      r.value.shelfbmassflux[t] == r.value.shelfbmassflux[u]
  {
    var band :- FitBand(o);
    if o.processMask && mask.None? then Failure(MissingMask)
    else if nt == 0 then Success(Forcing([], []))
    else
      var land :- if !o.processMask then Success(None)
                  else if !SameShape(lat, mask.value) then Failure(MaskShapeMismatch)
                  else Success(Some(mask.value));
      var field := MeltField(band, lat, land);
      var zeros := Zeros(lat);
      Success(Forcing(seq(nt, _ => field), seq(nt, _ => zeros)))
  }

  /** With no time slices the script writes nothing and never applies the
      mask, so a mask of any shape is accepted. */
  lemma NoSlicesIgnoreMaskShape(o: Options, lat: Grid<real>, m: Grid<int>)
    requires o.lat0 != o.lat1
    ensures Synthesize(o, lat, Some(m), 0) == Success(Forcing([], []))
  {
  }

  /** The default options give a southern flux of 207480 and a northern
      flux of 9100 kg m-2 yr-1, between latitudes 69 and 81. */
  lemma DefaultBand()
    ensures FitBand(DefaultOptions).Success?
    ensures FitBand(DefaultOptions).value.flux0 == 207480.0
    ensures FitBand(DefaultOptions).value.flux1 == 9100.0
  {
  }
}
