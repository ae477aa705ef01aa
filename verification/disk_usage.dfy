/** The disk-usage report of check_disk_usage.py: human-readable sizes
    (lines 17-28), the recommendation tier of the total size (lines 79-90),
    and the script's exit code (lines 30-130). Directory sizes, the clock and
    the printing are outside the model. */
module DiskUsage {
  import opened Common

  const Units := ["B", "KB", "MB", "GB", "TB"]

  function Pow1024(i: nat): (p: nat)
    ensures p >= 1
  {
    if i == 0 then 1 else 1024 * Pow1024(i - 1)
  }

  /** What `format_size` prints: `0 B`, or a magnitude with two decimals and
      a unit. */
  datatype Size = Zero | Scaled(magnitude: real, unit: string)

  /** `format_size(size_bytes)`: divide by 1024 while the value is at least
      1024 and a larger unit remains. */
  method FormatSize(size: nat) returns (r: Size, i: nat)
    ensures size == 0 <==> r == Zero
    ensures size > 0 ==> i < |Units| && r == Scaled(size as real / Pow1024(i) as real, Units[i])
    ensures size > 0 ==> Pow1024(i) <= size
    ensures size > 0 && i < |Units| - 1 ==> size < Pow1024(i + 1)
    ensures r.Scaled? ==> 1.0 <= r.magnitude && (i < |Units| - 1 ==> r.magnitude < 1024.0)
  {
    if size == 0 {
      return Zero, 0;
    }
    var magnitude := size as real;
    i := 0;
    while magnitude >= 1024.0 && i < |Units| - 1
      invariant i < |Units|
      invariant magnitude == size as real / Pow1024(i) as real
      invariant Pow1024(i) <= size
    {
      Scale(size, i);
      magnitude := magnitude / 1024.0;
      i := i + 1;
    }
    if i < |Units| - 1 {
      assert size as real / Pow1024(i) as real < 1024.0;
      Below(size, i);
    }
    ScaledRange(size, i);
    r := Scaled(magnitude, Units[i]);
  }

  /** One more division by 1024 is the size over the next power. */
  lemma Scale(size: nat, i: nat)
    requires size as real / Pow1024(i) as real >= 1024.0
    ensures size as real / Pow1024(i) as real / 1024.0 == size as real / Pow1024(i + 1) as real
    ensures Pow1024(i + 1) <= size
  {
    var p := Pow1024(i) as real;
    assert Pow1024(i + 1) as real == 1024.0 * p;
    assert size as real >= 1024.0 * p;
  }

  lemma Below(size: nat, i: nat)
    requires size as real / Pow1024(i) as real < 1024.0
    ensures size < Pow1024(i + 1)
  {
    var p := Pow1024(i) as real;
    assert Pow1024(i + 1) as real == 1024.0 * p;
    QuotientBelow(size as real, p, 1024.0);
  }

  /** `x / p < c` and `p > 0` give `x < c * p`. */
  lemma QuotientBelow(x: real, p: real, c: real)
    requires p > 0.0 && x / p < c
    ensures x < c * p
  {
    var q := x / p;
    assert x == q * p;
    assert q * p < c * p;
  }

  /** `x >= p > 0` gives `x / p >= 1`, and `x < c * p` gives `x / p < c`. */
  lemma QuotientBounds(x: real, p: real, c: real)
    requires p > 0.0 && x >= p
    ensures x / p >= 1.0
    ensures x < c * p ==> x / p < c
  {
    var q := x / p;
    assert x == q * p;
    assert (q - 1.0) * p == x - p;
    assert (q - c) * p == x - c * p;
  }

  /** Between 1 and 1024 in the chosen unit, except in terabytes, which have
      no upper bound. */
  lemma ScaledRange(size: nat, i: nat)
    requires size > 0 && i < |Units|
    requires Pow1024(i) <= size && (i < |Units| - 1 ==> size < Pow1024(i + 1))
    ensures 1.0 <= size as real / Pow1024(i) as real
    ensures i < |Units| - 1 ==> size as real / Pow1024(i) as real < 1024.0
  {
    var p := Pow1024(i) as real;
    assert Pow1024(i + 1) as real == 1024.0 * p;
    QuotientBounds(size as real, p, 1024.0);
  }

  /** The recommendation printed for the total size in MB. */
  datatype Tier = Low | Moderate | High

  function TierOf(totalMb: real): Tier {
    if totalMb > 1000.0 then High else if totalMb > 500.0 then Moderate else Low
  }

  function Rank(t: Tier): nat {
    match t
    case Low => 0
    case Moderate => 1
    case High => 2
  }

  /** A larger total never gets a lower tier, and each tier is exactly its
      band of sizes. */
  lemma TierMonotone(a: real, b: real)
    requires a <= b
    ensures Rank(TierOf(a)) <= Rank(TierOf(b))
    ensures TierOf(a) == High <==> a > 1000.0
    ensures TierOf(a) == Low <==> a <= 500.0
  {
  }

  /** `get_disk_usage()`: the total size when the dictionary has the key. */
  datatype Usage = Usage(totalSizeMb: Option<real>)

  /** How the script ends. */
  datatype Ending = Ending(code: nat, tier: Option<Tier>)

  /** The script: its imports fail as written (see below); `check_disk_usage`
      returns 1 on an exception, nothing (exit 0) when there is no usage,
      and 0 after printing the report. The report reads the cleanup settings,
      and a setting `Config` does not define raises. The tier is printed
      before the detailed listing, so a listing that raises still leaves the
      tier on screen and ends with 1. */
  function CheckDiskUsage(importsOk: bool, usage: Outcome<Option<Usage>>, settingsDefined: bool, detailed: bool, listingOk: bool)
    : (e: Ending)
    ensures e.code == 0 || e.code == 1
    ensures e.code == 0 ==> importsOk && usage.Done?
  {
    if !importsOk then Ending(1, None)
    else
      match usage
      case Raised(_) => Ending(1, None)
      case Done(None) => Ending(0, None)
      case Done(Some(u)) =>
        if !settingsDefined then Ending(1, None)
        else
          var total := match u.totalSizeMb case Some(t) => t case None => 0.0;
          if detailed && !listingOk then Ending(1, Some(TierOf(total)))
          else Ending(0, Some(TierOf(total)))
  }

  /** The tier is printed exactly when the imports, the usage query and the
      settings work; the script ends with 0 exactly when, besides, there was
      no usage to report, or the report was printed and any detailed listing
      worked. A usage without a total counts as zero and gets the low tier. */
  lemma ReportSpec(importsOk: bool, usage: Outcome<Option<Usage>>, settingsDefined: bool, detailed: bool, listingOk: bool)
    ensures var e := CheckDiskUsage(importsOk, usage, settingsDefined, detailed, listingOk);
      e.tier.Some? <==> importsOk && usage.Done? && usage.value.Some? && settingsDefined
    ensures var e := CheckDiskUsage(importsOk, usage, settingsDefined, detailed, listingOk);
      e.code == 0 <==> importsOk && usage.Done? && (usage.value.None? || (settingsDefined && (detailed ==> listingOk)))
    ensures var e := CheckDiskUsage(importsOk, usage, settingsDefined, detailed, listingOk);
      e.tier.Some? && usage.value.value.totalSizeMb.Some? ==> e.tier == Some(TierOf(usage.value.value.totalSizeMb.value))
    ensures var e := CheckDiskUsage(importsOk, usage, settingsDefined, detailed, listingOk);
      e.tier.Some? && usage.value.value.totalSizeMb.None? ==> e.tier == Some(Low)
  {
  }
}
