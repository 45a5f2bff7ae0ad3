/**
 * The column-wise normalisation of the joined geocoder output: FIPS
 * fragments to zero-padded text, their concatenation into `block_geoid`,
 * the `(lon, lat)` point, the `matchtype` rename and the final column
 * selection.
 */
module Normalize {
  import opened Wrappers
  import opened Fips
  import opened Records

  const StateWidth: nat := 2
  const CountyWidth: nat := 3
  const TractWidth: nat := 6
  const BlockWidth: nat := 4

  /** The length the schema demands of a block geoid: 2 + 3 + 6 + 4. */
  const GeoidLength: nat := 15

  /**
   * One fragment column: cast to `Int64`, then to text, then `str.zfill(width)`;
   * a null fragment stays null through all three.
   */
  function PadFragment(v: Option<nat>, width: nat): (p: Option<string>)
    ensures p.Some? <==> v.Some?
    ensures v.Some? ==> |p.value| >= width && IsDigits(p.value) && ParseDecimal(p.value) == v.value
  {
    match v
    case None => None
    case Some(n) =>
      PaddedFragmentValue(n, width);
      Some(ZFill(Decimal(n), width))
  }

  /**
   * `statefp + countyfp + tract + block` over the padded text columns; the
   * sum is null as soon as one fragment is null.
   */
  function BlockGeoid(r: Response): (g: Option<string>)
    ensures g.Some? <==> r.statefp.Some? && r.countyfp.Some? && r.tract.Some? && r.block.Some?
  {
    var st, co, tr, bl := PadFragment(r.statefp, StateWidth), PadFragment(r.countyfp, CountyWidth),
                          PadFragment(r.tract, TractWidth), PadFragment(r.block, BlockWidth);
    if st.Some? && co.Some? && tr.Some? && bl.Some? then Some(st.value + co.value + tr.value + bl.value)
    else None
  }

  /** Every fragment fits its width: state < 10^2, county < 10^3, tract < 10^6, block < 10^4. */
  predicate FragmentsFit(r: Response)
    requires r.statefp.Some? && r.countyfp.Some? && r.tract.Some? && r.block.Some?
  {
    r.statefp.value < Pow10(StateWidth) && r.countyfp.value < Pow10(CountyWidth) &&
    r.tract.value < Pow10(TractWidth) && r.block.value < Pow10(BlockWidth)
  }

  /**
   * A present geoid is at least 15 characters long, and exactly 15 when
   * every fragment fits its width; a wider fragment is kept whole and makes
   * the geoid longer.
   */
  lemma GeoidLengthExact(r: Response)
    requires BlockGeoid(r).Some?
    ensures |BlockGeoid(r).value| >= GeoidLength
    ensures |BlockGeoid(r).value| == GeoidLength <==> FragmentsFit(r)
  {
    PaddedFragmentLength(r.statefp.value, StateWidth);
    PaddedFragmentLength(r.countyfp.value, CountyWidth);
    PaddedFragmentLength(r.tract.value, TractWidth);
    PaddedFragmentLength(r.block.value, BlockWidth);
  }

  /**
   * A 15-character geoid reads back, field by field, as the four fragments
   * it was built from.
   */
  lemma GeoidDecode(r: Response)
    requires BlockGeoid(r).Some? && |BlockGeoid(r).value| == GeoidLength
    ensures var g := BlockGeoid(r).value;
      IsDigits(g) &&
      ParseDecimal(g[..2]) == r.statefp.value &&
      ParseDecimal(g[2..5]) == r.countyfp.value &&
      ParseDecimal(g[5..11]) == r.tract.value &&
      ParseDecimal(g[11..]) == r.block.value
  {
    var st, co, tr, bl := PadFragment(r.statefp, StateWidth), PadFragment(r.countyfp, CountyWidth),
                          PadFragment(r.tract, TractWidth), PadFragment(r.block, BlockWidth);
    GeoidLengthExact(r);
    PaddedFragmentLength(r.statefp.value, StateWidth);
    PaddedFragmentLength(r.countyfp.value, CountyWidth);
    PaddedFragmentLength(r.tract.value, TractWidth);
    PaddedFragmentLength(r.block.value, BlockWidth);
    SliceFour(st.value, co.value, tr.value, bl.value);
  }

  lemma SliceFour(a: string, b: string, c: string, d: string)
    requires |a| == 2 && |b| == 3 && |c| == 6 && |d| == 4
    requires IsDigits(a) && IsDigits(b) && IsDigits(c) && IsDigits(d)
    ensures var g := a + b + c + d;
      IsDigits(g) && g[..2] == a && g[2..5] == b && g[5..11] == c && g[11..] == d
  {
  }

  /**
   * Example: state 26, county 65, tract 1, block 2 give the
   * geoid "260650000010002".
   */
  lemma GeoidExample(r: Response)
    requires r.statefp == Some(26) && r.countyfp == Some(65) && r.tract == Some(1) && r.block == Some(2)
    ensures BlockGeoid(r) == Some("260650000010002")
  {
    StatePadExample();
    CountyPadExample();
    TractPadExample();
    BlockPadExample();
    var st, co, tr, bl := PadFragment(r.statefp, StateWidth), PadFragment(r.countyfp, CountyWidth),
                          PadFragment(r.tract, TractWidth), PadFragment(r.block, BlockWidth);
    assert BlockGeoid(r) == Some(st.value + co.value + tr.value + bl.value);
    assert "26" + "065" + "000001" + "0002" == "260650000010002";
  }

  lemma DecimalLiterals()
    ensures Decimal(26) == "26" && Decimal(65) == "65" && Decimal(1) == "1" && Decimal(2) == "2"
  {
    assert Digit(2) == '2' && Digit(6) == '6' && Digit(5) == '5' && Digit(1) == '1';
  }

  lemma StatePadExample()
    ensures PadFragment(Some(26), StateWidth) == Some("26")
  {
    DecimalLiterals();
    PadLiteral(26, StateWidth, "26", 0, "26");
  }

  lemma CountyPadExample()
    ensures PadFragment(Some(65), CountyWidth) == Some("065")
  {
    DecimalLiterals();
    PadLiteral(65, CountyWidth, "65", 1, "065");
  }

  lemma TractPadExample()
    ensures PadFragment(Some(1), TractWidth) == Some("000001")
  {
    DecimalLiterals();
    PadLiteral(1, TractWidth, "1", 5, "000001");
  }

  lemma BlockPadExample()
    ensures PadFragment(Some(2), BlockWidth) == Some("0002")
  {
    DecimalLiterals();
    PadLiteral(2, BlockWidth, "2", 3, "0002");
  }

  lemma PadLiteral(n: nat, width: nat, digits: string, zeros: nat, padded: string)
    requires Decimal(n) == digits && IsDigits(digits) && |digits| + zeros == width
    requires padded == seq(zeros, _ => '0') + digits
    ensures PadFragment(Some(n), width) == Some(padded)
  {
    PadExample(n, width, digits, zeros);
  }

  lemma PadExample(n: nat, width: nat, digits: string, zeros: nat)
    requires Decimal(n) == digits && IsDigits(digits) && |digits| + zeros == width
    ensures PadFragment(Some(n), width) == Some(seq(zeros, _ => '0') + digits)
  {
    if zeros > 0 {
      PadDigits(digits, width);
    } else {
      assert seq(zeros, _ => '0') + digits == digits;
    }
  }

  lemma PadDigits(s: string, width: nat)
    requires |s| < width && IsDigits(s)
    ensures ZFill(s, width) == seq(width - |s|, _ => '0') + s
  {
    if |s| > 0 {
      assert IsDigit(s[0]);
    }
  }

  /** One output row: id and date kept, `matchtype` renamed, geoid built, point made from (lon, lat). */
  function NormalizeRow(m: Merged): (row: GeoRow)
    ensures row.id == Some(m.resp.id) && row.date == m.date && row.matchType == m.resp.matchtype
    ensures row.geom == Some(Point(m.resp.lon, m.resp.lat))
    ensures row.blockGeoid == BlockGeoid(m.resp)
    ensures row.blockGeoid.None? <==>
      m.resp.statefp.None? || m.resp.countyfp.None? || m.resp.tract.None? || m.resp.block.None?
  {
    GeoRow(Some(m.resp.id), m.date, m.resp.matchtype, BlockGeoid(m.resp), Some(Point(m.resp.lon, m.resp.lat)))
  }

  /**
   * The whole normalisation chain followed by `[["id", "date", "match_type",
   * "block_geoid", "geom"]]`: exactly those five columns, one row per joined
   * row in the same order.
   */
  function NormalizeFrame(ms: seq<Merged>): (f: Frame)
    ensures f.columns == ["id", "date", "match_type", "block_geoid", "geom"]
    ensures |f.rows| == |ms|
    ensures forall i :: 0 <= i < |ms| ==>
      f.rows[i].id == Some(ms[i].resp.id) && f.rows[i].date == ms[i].date &&
      f.rows[i].matchType == ms[i].resp.matchtype &&
      f.rows[i].geom == Some(Point(ms[i].resp.lon, ms[i].resp.lat))
    ensures forall i :: 0 <= i < |ms| ==> f.rows[i].blockGeoid == BlockGeoid(ms[i].resp)
    ensures forall i :: 0 <= i < |ms| ==>
      (f.rows[i].blockGeoid.None? <==>
        ms[i].resp.statefp.None? || ms[i].resp.countyfp.None? || ms[i].resp.tract.None? || ms[i].resp.block.None?)
  {
    Frame(OutputColumns, seq(|ms|, i requires 0 <= i < |ms| => NormalizeRow(ms[i])))
  }
}
