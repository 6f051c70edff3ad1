/** Configuration::validateConfig: range checks on the loaded settings, in
    order, then a small correction of the class distribution so that it sums
    to 100. The settings' double fields are exact reals here. */
module Config {
  import opened Errors

  datatype Configuration = Configuration(
    outputFormat: string,
    precision: int,
    datasetSize: int,
    intersectionDistribution: seq<real>,
    volumeMin: real,
    volumeMax: real,
    numBins: int)

  const MIN_PRECISION: int := 1
  const MAX_PRECISION: int := 16
  const DISTRIBUTION_SIZE: nat := 5
  const MAX_VOLUME: real := 0.333333333333333
  const TARGET_SUM: real := 100.0
  /** A sum this close to 100 is left alone. */
  const TOLERANCE: real := 0.000001
  /** A sum further than this from 100 is refused. */
  const MAX_ALLOWED_DEVIATION: real := 0.5

  const PRECISION_RANGE := "Precision must be between 1 and 16"
  const DATASET_SIZE_POSITIVE := "Dataset size must be greater than 0"
  const DISTRIBUTION_LENGTH := "Intersection distribution must have exactly 5 values"
  const VOLUME_RANGE := "Invalid volume range"
  const BINS_POSITIVE := "Number of bins must be greater than 0"
  const DEVIATION_TOO_LARGE := "Intersection distribution deviation too large. Must be within 1% of 100"

  /** The distribution's entries added from the first to the last. */
  function Sum(d: seq<real>): real {
    if |d| == 0 then 0.0 else Sum(d[..|d| - 1]) + d[|d| - 1]
  }

  function Abs(x: real): real {
    if x < 0.0 then -x else x
  }

  predicate PrecisionValid(c: Configuration) {
    MIN_PRECISION <= c.precision <= MAX_PRECISION
  }

  predicate VolumeRangeValid(c: Configuration) {
    !(c.volumeMin < 0.0 || c.volumeMax > MAX_VOLUME || c.volumeMin >= c.volumeMax)
  }

  /** Every range check passes; only the sum check remains. */
  predicate RangesValid(c: Configuration) {
    && PrecisionValid(c)
    && c.datasetSize > 0
    && |c.intersectionDistribution| == DISTRIBUTION_SIZE
    && VolumeRangeValid(c)
    && c.numBins > 0
  }

  /** Moving the first entry by x moves the sum by x. */
  lemma {:induction false} SumShiftFirst(d: seq<real>, x: real)
    requires 0 < |d|
    ensures Sum(d[0 := d[0] + x]) == Sum(d) + x
  {
    var e := d[0 := d[0] + x];
    if |d| == 1 {
      assert e[..0] == [] && d[..0] == [];
    } else {
      assert e[..|e| - 1] == d[..|d| - 1][0 := d[0] + x];
      SumShiftFirst(d[..|d| - 1], x);
    }
  }

  /** validateConfig. The first failing check, in source order, decides the
      exception; a configuration that passes them all comes back with at most
      its first distribution entry changed. */
  function ValidateConfig(c: Configuration): (r: Result<Configuration>)
    ensures r == Err(InvalidArgument(PRECISION_RANGE)) <==> !PrecisionValid(c)
    ensures r == Err(InvalidArgument(DATASET_SIZE_POSITIVE)) <==> PrecisionValid(c) && c.datasetSize <= 0
    ensures r == Err(InvalidArgument(DISTRIBUTION_LENGTH)) <==>
      PrecisionValid(c) && c.datasetSize > 0 && |c.intersectionDistribution| != DISTRIBUTION_SIZE
    ensures r == Err(InvalidArgument(VOLUME_RANGE)) <==>
      PrecisionValid(c) && c.datasetSize > 0 && |c.intersectionDistribution| == DISTRIBUTION_SIZE
      && !VolumeRangeValid(c)
    ensures r == Err(InvalidArgument(BINS_POSITIVE)) <==>
      PrecisionValid(c) && c.datasetSize > 0 && |c.intersectionDistribution| == DISTRIBUTION_SIZE
      && VolumeRangeValid(c) && c.numBins <= 0
    // every range check precedes the sum check
    ensures r == Err(InvalidArgument(DEVIATION_TOO_LARGE)) <==>
      RangesValid(c) && Abs(Sum(c.intersectionDistribution) - TARGET_SUM) > MAX_ALLOWED_DEVIATION
    ensures r.Ok? <==> RangesValid(c) && Abs(Sum(c.intersectionDistribution) - TARGET_SUM) <= MAX_ALLOWED_DEVIATION
    // nothing but the distribution changes, and of it only the first entry
    ensures r.Ok? ==> r.value == c.(intersectionDistribution := r.value.intersectionDistribution)
    ensures r.Ok? ==> |r.value.intersectionDistribution| == DISTRIBUTION_SIZE
    ensures r.Ok? ==> r.value.intersectionDistribution[1..] == c.intersectionDistribution[1..]
    // a sum within the tolerance is kept as it is
    ensures r.Ok? && Abs(Sum(c.intersectionDistribution) - TARGET_SUM) <= TOLERANCE ==> r.value == c
    // otherwise the first entry absorbs the difference and the sum becomes 100
    ensures r.Ok? && Abs(Sum(c.intersectionDistribution) - TARGET_SUM) > TOLERANCE ==>
      && r.value.intersectionDistribution[0] == c.intersectionDistribution[0] + (TARGET_SUM - Sum(c.intersectionDistribution))
      && Sum(r.value.intersectionDistribution) == TARGET_SUM
  {
    if c.precision < MIN_PRECISION || c.precision > MAX_PRECISION then
      Err(InvalidArgument(PRECISION_RANGE))
    else if c.datasetSize <= 0 then
      Err(InvalidArgument(DATASET_SIZE_POSITIVE))
    else if |c.intersectionDistribution| != DISTRIBUTION_SIZE then
      Err(InvalidArgument(DISTRIBUTION_LENGTH))
    else if c.volumeMin < 0.0 || c.volumeMax > MAX_VOLUME || c.volumeMin >= c.volumeMax then
      Err(InvalidArgument(VOLUME_RANGE))
    else if c.numBins <= 0 then
      Err(InvalidArgument(BINS_POSITIVE))
    else
      var d := c.intersectionDistribution;
      var sum := Sum(d);
      if Abs(sum - TARGET_SUM) > TOLERANCE then
        if Abs(sum - TARGET_SUM) <= MAX_ALLOWED_DEVIATION then
          var difference := TARGET_SUM - sum;
          SumShiftFirst(d, difference);
          Ok(c.(intersectionDistribution := d[0 := d[0] + difference]))
        else
          Err(InvalidArgument(DEVIATION_TOO_LARGE))
      else
        Ok(c)
  }

  /** A validated configuration validates again unchanged. */
  lemma ValidateIdempotent(c: Configuration)
    requires ValidateConfig(c).Ok?
    ensures ValidateConfig(ValidateConfig(c).value) == ValidateConfig(c)
  {
    var c' := ValidateConfig(c).value;
    assert RangesValid(c');
  }
}
