/**
 * qualitycheck.py: the bitrate, loudness and high-frequency checks on one
 * decoded MP3, the fake-high-bitrate heuristic, the combined verdict of
 * analyze_mp3 and the batch of failing files that main collects.
 *
 * Decoding is an input: mutagen's bitrate, pydub's dBFS, channel count,
 * frame rate and samples arrive in a Decoded record, and the FFT magnitudes
 * np.abs(fft(x)) come from a function parameter `spectrum`.
 */
module Quality {
  import opened Wrappers
  import opened Paths

  const DefaultMinBitrate: int := 128         // kbps, check_bitrate
  const DefaultMinRms: real := -20.0          // dBFS, check_volume
  const DefaultMinHighFreq: int := 14000      // Hz, check_spectrum
  const DefaultThresholdRatio: real := 0.02   // check_spectrum
  const FakeBitrateFloor: int := 256          // kbps, fixed in detect_fake_high_bitrate
  const DefaultSuspiciousCutoff: real := 0.02 // detect_fake_high_bitrate

  /** pydub's dBFS: a level in dB, or minus infinity for a silent signal. */
  datatype Loudness = Silent | Dbfs(db: real)

  /** What the decoders report about one file. */
  datatype Decoded = Decoded(
    bitrate: int,        // bits per second (mutagen)
    loudness: Loudness,  // dBFS (pydub)
    channels: int,
    frameRate: int,
    samples: seq<int>)   // interleaved when there are two channels

  // ---------------------------------------------------------------- bitrate

  /** check_bitrate: the bitrate in whole kbps, rounded down, and whether it is below minBitrate. */
  function CheckBitrate(bitrate: int, minBitrate: int): (r: (int, bool))
    ensures r.0 * 1000 <= bitrate < r.0 * 1000 + 1000
    ensures r.1 <==> r.0 < minBitrate
  {
    var kbps := bitrate / 1000;
    (kbps, kbps < minBitrate)
  }

  // ---------------------------------------------------------------- loudness

  /** check_volume's comparison; minus infinity is below every threshold. */
  function CheckVolume(level: Loudness, minRms: real): (r: (Loudness, bool))
    ensures r.0 == level
    ensures level.Silent? ==> r.1
    ensures level.Dbfs? ==> (r.1 <==> level.db < minRms)
  {
    (level, level.Silent? || level.db < minRms)
  }

  // ---------------------------------------------------------------- downmix

  /** reshape((-1, 2)).mean(axis=1): the mean of each left/right pair. */
  function PairMeans(s: seq<int>): (r: seq<real>)
    requires |s| % 2 == 0
    ensures |r| == |s| / 2
  {
    seq(|s| / 2, i requires 0 <= i < |s| / 2 => (s[2 * i] + s[2 * i + 1]) as real / 2.0)
  }

  function AsReals(s: seq<int>): (r: seq<real>)
    ensures |r| == |s| && forall i :: 0 <= i < |s| ==> r[i] == s[i] as real
  {
    seq(|s|, i requires 0 <= i < |s| => s[i] as real)
  }

  /**
   * The signal check_spectrum transforms: stereo is averaged pair by pair
   * into mono, anything else is used as it is; None where the reshape
   * raises because a stereo buffer has an odd number of samples.
   */
  function Downmix(samples: seq<int>, channels: int): (r: Option<seq<real>>)
    ensures channels != 2 ==> r == Some(AsReals(samples))
    ensures channels == 2 ==> (r.Some? <==> |samples| % 2 == 0)
    ensures channels == 2 && r.Some? ==> |r.value| == |samples| / 2
    ensures channels == 2 && r.Some? ==>
      forall i :: 0 <= i < |r.value| ==> r.value[i] == (samples[2 * i] + samples[2 * i + 1]) as real / 2.0
  {
    if channels != 2 then Some(AsReals(samples))
    else if |samples| % 2 != 0 then None
    else Some(PairMeans(samples))
  }

  // ---------------------------------------------------------------- spectrum

  /**
   * Bin k of an n-point FFT at frameRate lies at k * frameRate / n Hz
   * (fftfreq); it is above the cutoff when k * frameRate > cutoff * n.
   */
  predicate IsHighBin(k: int, n: int, frameRate: int, minHighFreq: int) {
    k * frameRate > minHighFreq * n
  }

  /** The integer test is the frequency comparison of the source, stated exactly. */
  lemma HighBinIsAboveCutoff(k: int, n: int, frameRate: int, minHighFreq: int)
    requires n > 0
    ensures IsHighBin(k, n, frameRate, minHighFreq) <==> (k * frameRate) as real / n as real > minHighFreq as real
  {
    var x := (k * frameRate) as real;
    var y := n as real;
    assert (x / y) * y == x;
    assert (minHighFreq * n) as real == minHighFreq as real * y;
    if x / y > minHighFreq as real {
      assert (x / y) * y > minHighFreq as real * y;
    }
    if x > minHighFreq as real * y {
      assert (x / y) * y > minHighFreq as real * y;
    }
  }

  /** The sum of all magnitudes. */
  function Total(mags: seq<real>): real {
    if mags == [] then 0.0 else Total(mags[..|mags| - 1]) + mags[|mags| - 1]
  }

  predicate NonNegative(mags: seq<real>) {
    forall i :: 0 <= i < |mags| ==> mags[i] >= 0.0
  }

  /**
   * positive_fft[positive_freqs > min_high_freq].sum(): the magnitudes of
   * the bins (numbered from 0) that lie above the cutoff; with
   * non-negative magnitudes it is at most the total.
   */
  function HighEnergy(mags: seq<real>, n: int, frameRate: int, minHighFreq: int): (r: real)
    ensures NonNegative(mags) ==> 0.0 <= r <= Total(mags)
  {
    if mags == [] then 0.0
    else
      var k := |mags| - 1;
      HighEnergy(mags[..k], n, frameRate, minHighFreq)
        + (if IsHighBin(k, n, frameRate, minHighFreq) then mags[k] else 0.0)
  }

  /** The first bin above the cutoff when frameRate > 0. */
  function FirstHighBin(n: int, frameRate: int, minHighFreq: int): int
    requires frameRate > 0
  {
    (minHighFreq * n) / frameRate + 1
  }

  lemma MulMonotone(a: int, b: int, m: int)
    requires a <= b && m >= 0
    ensures a * m <= b * m
  {
    assert b * m - a * m == (b - a) * m;
  }

  /** Frequencies grow with the bin number: exactly the bins from FirstHighBin on are high. */
  lemma HighBinsFromFirst(k: int, n: int, frameRate: int, minHighFreq: int)
    requires frameRate > 0
    ensures IsHighBin(k, n, frameRate, minHighFreq) <==> k >= FirstHighBin(n, frameRate, minHighFreq)
  {
    var q := (minHighFreq * n) / frameRate;
    var rem := (minHighFreq * n) % frameRate;
    assert minHighFreq * n == q * frameRate + rem && 0 <= rem < frameRate;
    if k >= q + 1 {
      MulMonotone(q + 1, k, frameRate);
      assert (q + 1) * frameRate == q * frameRate + frameRate;
    } else {
      MulMonotone(k, q, frameRate);
    }
  }

  function Clamp(t: int, m: nat): (r: nat)
    ensures r <= m
  {
    if t < 0 then 0 else if t > m then m else t
  }

  /**
   * The bins above the cutoff are the top band of the spectrum: the
   * high-frequency energy is the sum of the magnitudes from FirstHighBin on.
   */
  lemma {:induction false} HighEnergyIsTopBand(mags: seq<real>, n: int, frameRate: int, minHighFreq: int)
    requires frameRate > 0
    ensures HighEnergy(mags, n, frameRate, minHighFreq)
         == Total(mags[Clamp(FirstHighBin(n, frameRate, minHighFreq), |mags|)..])
  {
    if mags != [] {
      var k := |mags| - 1;
      var init := mags[..k];
      var t := FirstHighBin(n, frameRate, minHighFreq);
      HighEnergyIsTopBand(init, n, frameRate, minHighFreq);
      HighBinsFromFirst(k, n, frameRate, minHighFreq);
      if k >= t {
        var f := Clamp(t, |mags|);
        assert f == Clamp(t, k);
        assert mags[f..][..|mags[f..]| - 1] == init[f..];
      } else {
        assert Clamp(t, |mags|) == |mags| && Clamp(t, k) == k;
        assert init[k..] == [];
      }
    }
  }

  /** ratio = high / total when total > 0, else 0. */
  function Ratio(high: real, total: real): (r: real)
    ensures total > 0.0 ==> r * total == high
    ensures total <= 0.0 ==> r == 0.0
    ensures 0.0 <= high <= total ==> 0.0 <= r <= 1.0
  {
    if total > 0.0 then high / total else 0.0
  }

  /**
   * check_spectrum from the FFT magnitudes on: only the first half of the
   * n bins is used, and the ratio of its high-frequency energy to its total
   * energy lies in [0, 1] whenever the magnitudes are non-negative.
   */
  function SpectrumRatio(mags: seq<real>, frameRate: int, minHighFreq: int): (r: real)
    ensures var half := mags[..|mags| / 2];
      Total(half) > 0.0 ==> r * Total(half) == HighEnergy(half, |mags|, frameRate, minHighFreq)
    ensures NonNegative(mags) ==> 0.0 <= r <= 1.0
    ensures Total(mags[..|mags| / 2]) <= 0.0 ==> r == 0.0
  {
    var n := |mags|;
    var half := mags[..n / 2];
    assert NonNegative(mags) ==> NonNegative(half);
    Ratio(HighEnergy(half, n, frameRate, minHighFreq), Total(half))
  }

  /**
   * The ratio is the share of the total energy of the first n div 2 bins
   * that lies in the bins from the first one above the cutoff on.
   */
  lemma RatioIsTopBandShare(mags: seq<real>, frameRate: int, minHighFreq: int)
    requires frameRate > 0
    ensures var half := mags[..|mags| / 2];
      var top := half[Clamp(FirstHighBin(|mags|, frameRate, minHighFreq), |half|)..];
      Total(half) > 0.0 ==> SpectrumRatio(mags, frameRate, minHighFreq) * Total(half) == Total(top)
  {
    HighEnergyIsTopBand(mags[..|mags| / 2], |mags|, frameRate, minHighFreq);
  }

  lemma {:induction false} TotalOfZeros(mags: seq<real>)
    requires forall i :: 0 <= i < |mags| ==> mags[i] == 0.0
    ensures Total(mags) == 0.0
  {
    if mags != [] {
      TotalOfZeros(mags[..|mags| - 1]);
    }
  }

  /** A spectrum without energy (the FFT of silence) has ratio 0, which every positive threshold flags. */
  lemma ZeroSpectrumIsBad(mags: seq<real>, frameRate: int, minHighFreq: int, thresholdRatio: real)
    requires forall i :: 0 <= i < |mags| ==> mags[i] == 0.0
    requires thresholdRatio > 0.0
    ensures SpectrumRatio(mags, frameRate, minHighFreq) == 0.0 < thresholdRatio
  {
    TotalOfZeros(mags[..|mags| / 2]);
  }

  /**
   * check_spectrum: the ratio and whether it is below thresholdRatio.
   * None where it raises: the reshape of an odd stereo buffer, the FFT of
   * an empty buffer (scipy rejects zero points) and the sample spacing
   * 1.0 / frame_rate for a frame rate of 0.
   */
  function CheckSpectrum(d: Decoded, spectrum: seq<real> -> seq<real>, minHighFreq: int, thresholdRatio: real)
    : (r: Option<(real, bool)>)
    ensures r.None? <==> Downmix(d.samples, d.channels).None? || d.samples == [] || d.frameRate == 0
    ensures r.Some? ==> r.value.0 == SpectrumRatio(spectrum(Downmix(d.samples, d.channels).value), d.frameRate, minHighFreq)
    ensures r.Some? ==> (r.value.1 <==> r.value.0 < thresholdRatio)
    ensures r.Some? && NonNegative(spectrum(Downmix(d.samples, d.channels).value)) ==> 0.0 <= r.value.0 <= 1.0
  {
    match Downmix(d.samples, d.channels)
    case None => None
    case Some(mono) =>
      if mono == [] || d.frameRate == 0 then None
      else
        var ratio := SpectrumRatio(spectrum(mono), d.frameRate, minHighFreq);
        Some((ratio, ratio < thresholdRatio))
  }

  // ---------------------------------------------------------------- verdict

  /** detect_fake_high_bitrate: a high bitrate with hardly any high-frequency energy. */
  function DetectFakeHighBitrate(kbps: int, ratio: real, suspiciousCutoff: real): (r: bool)
    ensures r ==> kbps >= FakeBitrateFloor && ratio < suspiciousCutoff
    ensures kbps < FakeBitrateFloor ==> !r
    ensures ratio >= suspiciousCutoff ==> !r
    ensures kbps >= FakeBitrateFloor && ratio < suspiciousCutoff ==> r
  {
    kbps >= FakeBitrateFloor && ratio < suspiciousCutoff
  }

  /** The figures and flags analyze_mp3 prints, and its verdict. */
  datatype Report = Report(
    kbps: int, loudness: Loudness, ratio: real,
    lowBitrate: bool, lowVolume: bool, badSpectrum: bool, fakeHighBitrate: bool,
    passed: bool)

  /**
   * analyze_mp3 with the default thresholds: passes exactly when none of
   * the four flags is raised; None where check_spectrum raises.
   */
  function AnalyzeMp3(d: Decoded, spectrum: seq<real> -> seq<real>): (r: Option<Report>)
    ensures r.Some? <==> (d.channels != 2 || |d.samples| % 2 == 0) && d.samples != [] && d.frameRate != 0
    ensures r.Some? ==> (r.value.passed <==>
      !r.value.lowBitrate && !r.value.lowVolume && !r.value.badSpectrum && !r.value.fakeHighBitrate)
    ensures r.Some? ==> r.value.kbps * 1000 <= d.bitrate < r.value.kbps * 1000 + 1000
    ensures r.Some? ==> (r.value.lowBitrate <==> r.value.kbps < DefaultMinBitrate)
    ensures r.Some? ==> r.value.loudness == d.loudness
    ensures r.Some? ==> (r.value.lowVolume <==> d.loudness.Silent? || d.loudness.db < DefaultMinRms)
    ensures r.Some? ==>
      r.value.ratio == SpectrumRatio(spectrum(Downmix(d.samples, d.channels).value), d.frameRate, DefaultMinHighFreq)
    ensures r.Some? ==> (r.value.badSpectrum <==> r.value.ratio < DefaultThresholdRatio)
    ensures r.Some? ==> (r.value.fakeHighBitrate <==>
      r.value.kbps >= FakeBitrateFloor && r.value.ratio < DefaultSuspiciousCutoff)
    ensures r.Some? && NonNegative(spectrum(Downmix(d.samples, d.channels).value)) ==> 0.0 <= r.value.ratio <= 1.0
  {
    var (kbps, lowBitrate) := CheckBitrate(d.bitrate, DefaultMinBitrate);
    var (level, lowVolume) := CheckVolume(d.loudness, DefaultMinRms);
    match CheckSpectrum(d, spectrum, DefaultMinHighFreq, DefaultThresholdRatio)
    case None => None
    case Some((ratio, badSpectrum)) =>
      var fake := DetectFakeHighBitrate(kbps, ratio, DefaultSuspiciousCutoff);
      Some(Report(kbps, level, ratio, lowBitrate, lowVolume, badSpectrum, fake,
                  !lowBitrate && !lowVolume && !badSpectrum && !fake))
  }

  /** With the default thresholds the fake-bitrate flag implies the bad-spectrum flag, so it never decides a verdict. */
  lemma FakeNeverDecidesVerdict(d: Decoded, spectrum: seq<real> -> seq<real>)
    requires AnalyzeMp3(d, spectrum).Some?
    ensures var r := AnalyzeMp3(d, spectrum).value;
      (r.fakeHighBitrate ==> r.badSpectrum) && (r.passed <==> !r.lowBitrate && !r.lowVolume && !r.badSpectrum)
  {
  }

  /** A declared bitrate under 128 kbps fails whatever the signal. */
  lemma LowBitrateFails(d: Decoded, spectrum: seq<real> -> seq<real>)
    requires d.bitrate < DefaultMinBitrate * 1000
    ensures AnalyzeMp3(d, spectrum).Some? ==> !AnalyzeMp3(d, spectrum).value.passed
  {
  }

  /** A silent file fails on loudness, and a spectrum without energy fails on the spectrum too. */
  lemma SilenceFails(d: Decoded, spectrum: seq<real> -> seq<real>)
    requires d.loudness.Silent?
    requires d.channels != 2 || |d.samples| % 2 == 0
    requires d.samples != [] && d.frameRate != 0
    requires var mags := spectrum(Downmix(d.samples, d.channels).value);
      forall i :: 0 <= i < |mags| ==> mags[i] == 0.0
    ensures AnalyzeMp3(d, spectrum).Some?
    ensures AnalyzeMp3(d, spectrum).value.lowVolume
    ensures AnalyzeMp3(d, spectrum).value.ratio == 0.0 && AnalyzeMp3(d, spectrum).value.badSpectrum
    ensures !AnalyzeMp3(d, spectrum).value.passed
  {
    var mags := spectrum(Downmix(d.samples, d.channels).value);
    ZeroSpectrumIsBad(mags, d.frameRate, DefaultMinHighFreq, DefaultThresholdRatio);
  }

  // ---------------------------------------------------------------- batch

  /** analyze_mp3 on one path; None where decoding or the analysis raises. */
  function Verdict(path: string, decode: string -> Option<Decoded>, spectrum: seq<real> -> seq<real>): Option<bool> {
    match decode(path)
    case None => None
    case Some(d) =>
      match AnalyzeMp3(d, spectrum)
      case None => None
      case Some(report) => Some(report.passed)
  }

  /**
   * The failing files in processing order; None when an exception ends
   * main before it prints them.
   */
  function BadFiles(files: seq<string>, decode: string -> Option<Decoded>, spectrum: seq<real> -> seq<real>)
    : Option<seq<string>>
  {
    if files == [] then Some([])
    else
      var last := files[|files| - 1];
      match BadFiles(files[..|files| - 1], decode, spectrum)
      case None => None
      case Some(bad) =>
        match Verdict(last, decode, spectrum)
        case None => None
        case Some(ok) => Some(if ok then bad else bad + [last])
  }

  lemma {:induction false} CrashPersists(files: seq<string>, i: nat, decode: string -> Option<Decoded>,
                                         spectrum: seq<real> -> seq<real>)
    requires i <= |files| && BadFiles(files[..i], decode, spectrum).None?
    ensures BadFiles(files, decode, spectrum).None?
    decreases |files| - i
  {
    if i < |files| {
      assert files[..i + 1][..i] == files[..i];
      CrashPersists(files, i + 1, decode, spectrum);
    } else {
      assert files[..i] == files;
    }
  }

  /** main: expands the arguments, analyses each file in turn and collects those that fail. */
  method CheckFiles(args: seq<Arg>, decode: string -> Option<Decoded>, spectrum: seq<real> -> seq<real>)
    returns (bad: Option<seq<string>>)
    ensures bad == BadFiles(Expanded(args), decode, spectrum)
  {
    var files := ExpandArgs(args);
    var found: seq<string> := [];
    var i := 0;
    while i < |files|
      invariant 0 <= i <= |files|
      invariant BadFiles(files[..i], decode, spectrum) == Some(found)
    {
      assert files[..i + 1][..i] == files[..i];
      var verdict := Verdict(files[i], decode, spectrum);
      if verdict.None? {
        CrashPersists(files, i + 1, decode, spectrum);
        return None;
      }
      if !verdict.value {
        found := found + [files[i]];
      }
      i := i + 1;
    }
    assert files[..i] == files;
    bad := Some(found);
  }

  /** Without a crash, a file is reported exactly when it was processed and failed. */
  lemma {:induction false} BadFilesAreTheFailures(files: seq<string>, decode: string -> Option<Decoded>,
                                                  spectrum: seq<real> -> seq<real>, f: string)
    requires BadFiles(files, decode, spectrum).Some?
    ensures forall g :: g in files ==> Verdict(g, decode, spectrum).Some?
    ensures f in BadFiles(files, decode, spectrum).value <==> f in files && Verdict(f, decode, spectrum) == Some(false)
  {
    if files != [] {
      var init := files[..|files| - 1];
      BadFilesAreTheFailures(init, decode, spectrum, f);
      assert files == init + [files[|files| - 1]];
    }
  }

  /** Exactly the inputs where some file cannot be analysed end main with an exception. */
  lemma {:induction false} CrashIffUnanalysable(files: seq<string>, decode: string -> Option<Decoded>,
                                                spectrum: seq<real> -> seq<real>)
    ensures BadFiles(files, decode, spectrum).None? <==> exists g :: g in files && Verdict(g, decode, spectrum).None?
  {
    if files != [] {
      var init := files[..|files| - 1];
      CrashIffUnanalysable(init, decode, spectrum);
      assert files == init + [files[|files| - 1]];
    }
  }
}
