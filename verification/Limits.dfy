/**
 From annotations and kubelet's numbers to the limits of one direction. The float64 product of a
 rate and a burst ratio is an arbitrary function `scale`, so rounding plays no part in the results.
 */
module Limits {
  import opened Words
  import opened Flow
  import opened Bandwidth

  const DEFAULT_HH_THRESHOLD_BYTES: int64 := 0x4_0000
  const MIN_BURST_BYTES: int64 := 0x1_0000
  const MIN_HH_THRESHOLD_BYTES: int64 := 0x4000
  const DEFAULT_FAST_PASS_TIME_CONSTANT_MS: int64 := 100
  const DEFAULT_BURST_RATIO: real := 0.5

  /** Bytes per second, bucket capacity, and sketch bytes above which a flow is heavy. */
  datatype Config = Config(rate: int64, burst: int64, hh: int64)

  datatype ConfigResult = Parsed(cfg: Config) | BadBandwidth(why: Quantity) | BadJson

  type Scale = (int64, real) -> int64

  /** The extended annotation form after JSON decoding. */
  datatype Raw = Raw(rate: string, burst: string, hh: int64)

  type Decode = string -> Option<Raw>

  // ---------------------------------------------------------------- signed 64-bit arithmetic

  function WrapSigned(x: int): int64 {
    (x + 0x8000_0000_0000_0000) % TWO64 - 0x8000_0000_0000_0000
  }

  /** Division rounding toward zero. */
  function Quotient(x: int64, d: int): (q: int64)
    requires 1 < d
    ensures 0 <= x ==> q == x / d
  {
    var y: int := x;
    DivLe(if y < 0 then -y else y, d);
    if y < 0 then -((-y) / d) else y / d
  }

  // ---------------------------------------------------------------- annotations

  function AtLeastMin(b: int64): int64 {
    if b < MIN_BURST_BYTES then MIN_BURST_BYTES else b
  }

  function DefaultBurstFor(scale: Scale, rate: int64): int64 {
    AtLeastMin(scale(rate, DEFAULT_BURST_RATIO))
  }

  const DEFAULT_CONFIG: Config := Config(0, 0, DEFAULT_HH_THRESHOLD_BYTES)

  predicate Validate(c: Config) {
    0 <= c.rate && 0 <= c.burst && 0 <= c.hh
  }

  ghost function JsonConfig(scale: Scale, raw: Raw): ConfigResult {
    var rate, burst := BandwidthOf(raw.rate), BandwidthOf(raw.burst);
    if raw.rate != "" && !rate.Ok? then BadBandwidth(rate)
    else if raw.burst != "" && !burst.Ok? then BadBandwidth(burst)
    else
      var r: int64 := if raw.rate != "" then Quotient(rate.value, 8) else 0;
      Parsed(Config(r,
                    if raw.burst != "" then Quotient(burst.value, 8)
                    else if r > 0 then DefaultBurstFor(scale, r) else 0,
                    if raw.hh > 0 then raw.hh else DEFAULT_HH_THRESHOLD_BYTES))
  }

  ghost function AnnotationConfig(scale: Scale, decode: Decode, a: string): ConfigResult {
    if a == "" then Parsed(DEFAULT_CONFIG)
    else if IsJson(a) then (if decode(a).None? then BadJson else JsonConfig(scale, decode(a).value))
    else
      var bits := BandwidthOf(a);
      if !bits.Ok? then BadBandwidth(bits) else
        var rate := Quotient(bits.value, 8);
        Parsed(Config(rate, DefaultBurstFor(scale, rate), DEFAULT_HH_THRESHOLD_BYTES))
  }

  predicate IsJson(a: string) {
    var t := TrimSpace(a);
    t != "" && t[0] == '{'
  }

  /** The JSON form: defaults first, then each given field overrides. */
  method ParseJsonConfig(scale: Scale, raw: Raw) returns (r: ConfigResult)
    ensures r == JsonConfig(scale, raw)
  {
    var cfg := DEFAULT_CONFIG;
    if raw.rate != "" {
      var rateBits := ParseBandwidth(raw.rate);
      if !rateBits.Ok? {
        return BadBandwidth(rateBits);
      }
      cfg := cfg.(rate := Quotient(rateBits.value, 8));
    }
    if raw.burst != "" {
      var burstBits := ParseBandwidth(raw.burst);
      if !burstBits.Ok? {
        return BadBandwidth(burstBits);
      }
      cfg := cfg.(burst := Quotient(burstBits.value, 8));
    } else if cfg.rate > 0 {
      cfg := cfg.(burst := DefaultBurstFor(scale, cfg.rate));
    }
    if raw.hh > 0 {
      cfg := cfg.(hh := raw.hh);
    }
    return Parsed(cfg);
  }

  method ParseBandwidthAnnotation(scale: Scale, decode: Decode, a: string) returns (r: ConfigResult)
    ensures r == AnnotationConfig(scale, decode, a)
  {
    if a == "" {
      return Parsed(DEFAULT_CONFIG);
    }
    if IsJson(a) {
      var raw := decode(a);
      if raw.None? {
        return BadJson;
      }
      r := ParseJsonConfig(scale, raw.value);
      return;
    }
    var rateBits := ParseBandwidth(a);
    if !rateBits.Ok? {
      return BadBandwidth(rateBits);
    }
    var cfg := DEFAULT_CONFIG;
    cfg := cfg.(rate := Quotient(rateBits.value, 8));
    cfg := cfg.(burst := DefaultBurstFor(scale, cfg.rate));
    return Parsed(cfg);
  }

  /** Whatever the parser accepts is internally consistent, for any rounding and any decoder. */
  lemma {:induction false} AcceptedConfigsValidate(scale: Scale, decode: Decode, a: string)
    ensures var r := AnnotationConfig(scale, decode, a); r.Parsed? ==> Validate(r.cfg)
  {
    AcceptedIsCapped(a);
    if IsJson(a) && decode(a).Some? {
      AcceptedIsCapped(decode(a).value.rate);
      AcceptedIsCapped(decode(a).value.burst);
    }
  }

  // ---------------------------------------------------------------- cluster defaults

  datatype Defaults = Defaults(hh: int64, fastPassMs: int64, burstRatio: real)

  function TimeConstantMs(d: Option<Defaults>): int64 {
    if d.Some? && d.value.fastPassMs > 0 then d.value.fastPassMs else DEFAULT_FAST_PASS_TIME_CONSTANT_MS
  }

  function ResolveHHThreshold(d: Option<Defaults>, rate: int64): int64 {
    if d.Some? && d.value.hh > 0 then d.value.hh else
      var scaled := Quotient(WrapSigned(rate * TimeConstantMs(d)), 1000);
      if scaled < MIN_HH_THRESHOLD_BYTES then MIN_HH_THRESHOLD_BYTES else scaled
  }

  /** The rate-scaled threshold is the documented formula exactly while rate * ms fits in int64. */
  lemma {:induction false} ThresholdFormula(d: Option<Defaults>, rate: int64)
    requires 0 <= rate && !(d.Some? && d.value.hh > 0)
    ensures ResolveHHThreshold(d, rate) == Max(MIN_HH_THRESHOLD_BYTES, (rate * TimeConstantMs(d)) / 1000) <==>
            rate * TimeConstantMs(d) <= MAX_INT64
  {
    MulLe(0, rate, TimeConstantMs(d));
    ScaledThreshold(rate * TimeConstantMs(d));
  }

  lemma {:induction false} ScaledThreshold(x: nat)
    ensures var q := Quotient(WrapSigned(x), 1000);
            ((if q < MIN_HH_THRESHOLD_BYTES then MIN_HH_THRESHOLD_BYTES else q) ==
             Max(MIN_HH_THRESHOLD_BYTES, x / 1000)) <==> x <= MAX_INT64
  {
  }

  function BurstRatio(d: Option<Defaults>): real {
    if d.Some? && d.value.burstRatio > 0.0 then d.value.burstRatio else DEFAULT_BURST_RATIO
  }

  function MaxBurst(scale: Scale, d: Option<Defaults>, rate: int64): int64 {
    AtLeastMin(scale(rate, BurstRatio(d)))
  }

  // ---------------------------------------------------------------- one direction

  datatype Direction = Ingress | Egress

  datatype Kubelet = Kubelet(ingressRate: int64, ingressBurst: int64, egressRate: int64, egressBurst: int64)

  datatype NetConf = NetConf(bandwidth: Option<Kubelet>, annotations: Option<map<string, string>>, defaults: Option<Defaults>)

  function AnnotationKey(dir: Direction): string {
    if dir.Egress? then "kubernetes.io/egress-bandwidth" else "kubernetes.io/ingress-bandwidth"
  }

  function RateBits(k: Kubelet, dir: Direction): int64 {
    if dir.Ingress? then k.ingressRate else k.egressRate
  }

  function BurstBits(k: Kubelet, dir: Direction): int64 {
    if dir.Ingress? then k.ingressBurst else k.egressBurst
  }

  function FromKubelet(scale: Scale, d: Option<Defaults>, rateBits: int64, burstBits: int64): Config {
    var rate, burst := Quotient(rateBits, 8), Quotient(burstBits, 8);
    var top := MaxBurst(scale, d, rate);
    Config(rate, if burst <= 0 || burst > top then top else burst, ResolveHHThreshold(d, rate))
  }

  /** Cluster defaults replace the values of an annotation that equal the compiled-in ones. */
  function WithDefaults(scale: Scale, d: Option<Defaults>, c: Config): Config {
    Config(c.rate,
           if d.Some? && d.value.burstRatio > 0.0 && c.burst == DefaultBurstFor(scale, c.rate)
           then AtLeastMin(scale(c.rate, d.value.burstRatio)) else c.burst,
           if c.hh == DEFAULT_HH_THRESHOLD_BYTES then ResolveHHThreshold(d, c.rate) else c.hh)
  }

  ghost function FromAnnotation(scale: Scale, decode: Decode, d: Option<Defaults>, a: string): Option<Config> {
    if a == "" then None else
      var r := AnnotationConfig(scale, decode, a);
      if r.Parsed? && r.cfg.rate > 0 then Some(WithDefaults(scale, d, r.cfg)) else None
  }

  ghost function DirectionConfig(scale: Scale, decode: Decode, conf: NetConf, dir: Direction): Option<Config> {
    if conf.bandwidth.Some? && RateBits(conf.bandwidth.value, dir) > 0
    then Some(FromKubelet(scale, conf.defaults, RateBits(conf.bandwidth.value, dir), BurstBits(conf.bandwidth.value, dir)))
    else if conf.annotations.Some? && AnnotationKey(dir) in conf.annotations.value
    then FromAnnotation(scale, decode, conf.defaults, conf.annotations.value[AnnotationKey(dir)])
    else None
  }

  method ResolveDirectionConfig(scale: Scale, decode: Decode, conf: NetConf, dir: Direction) returns (r: Option<Config>)
    ensures r == DirectionConfig(scale, decode, conf, dir)
  {
    var rateBits: int64, burstBits: int64 := 0, 0;
    if conf.bandwidth.Some? {
      rateBits, burstBits := RateBits(conf.bandwidth.value, dir), BurstBits(conf.bandwidth.value, dir);
    }
    var burstRatio := DEFAULT_BURST_RATIO;
    if conf.defaults.Some? && conf.defaults.value.burstRatio > 0.0 {
      burstRatio := conf.defaults.value.burstRatio;
    }
    if rateBits > 0 {
      var out := DEFAULT_CONFIG;
      out := out.(rate := Quotient(rateBits, 8));
      var burst := Quotient(burstBits, 8);
      var maxBurst := scale(out.rate, burstRatio);
      if maxBurst < MIN_BURST_BYTES {
        maxBurst := MIN_BURST_BYTES;
      }
      if burst <= 0 || burst > maxBurst {
        burst := maxBurst;
      }
      out := out.(burst := burst);
      out := out.(hh := ResolveHHThreshold(conf.defaults, out.rate));
      return Some(out);
    }
    if conf.annotations.Some? && AnnotationKey(dir) in conf.annotations.value {
      var a := conf.annotations.value[AnnotationKey(dir)];
      if a != "" {
        var parsed := ParseBandwidthAnnotation(scale, decode, a);
        if !parsed.Parsed? {
          return None;
        }
        var cfg := parsed.cfg;
        if cfg.rate > 0 {
          if cfg.hh == DEFAULT_HH_THRESHOLD_BYTES {
            cfg := cfg.(hh := ResolveHHThreshold(conf.defaults, cfg.rate));
          }
          if conf.defaults.Some? && conf.defaults.value.burstRatio > 0.0 &&
             cfg.burst == DefaultBurstFor(scale, cfg.rate) {
            cfg := cfg.(burst := scale(cfg.rate, burstRatio));
            if cfg.burst < MIN_BURST_BYTES {
              cfg := cfg.(burst := MIN_BURST_BYTES);
            }
          }
          return Some(cfg);
        }
      }
    }
    return None;
  }

  // ---------------------------------------------------------------- the two channels

  /** Only the annotation channel speaks. */
  function ByAnnotation(dir: Direction, a: string, d: Option<Defaults>): NetConf {
    NetConf(None, Some(map[AnnotationKey(dir) := a]), d)
  }

  /** Only kubelet speaks, with the bit rate the annotation denotes and some burst. */
  function ByKubelet(bits: int64, burstBits: int64, d: Option<Defaults>): NetConf {
    NetConf(Some(Kubelet(bits, burstBits, bits, burstBits)), None, d)
  }

  lemma {:induction false} AnnotationChannel(scale: Scale, decode: Decode, dir: Direction, a: string, d: Option<Defaults>, bits: int64)
    requires a != "" && !IsJson(a) && BandwidthOf(a) == Ok(bits)
    ensures 0 <= bits
    ensures var rate := Quotient(bits, 8);
            DirectionConfig(scale, decode, ByAnnotation(dir, a, d), dir) ==
            if rate > 0 then Some(Config(rate, MaxBurst(scale, d, rate), ResolveHHThreshold(d, rate))) else None
  {
    AcceptedIsCapped(a);
  }

  /**
   For every simple annotation, every defaults block and every burst kubelet may send, the two channels
   resolve a direction to the same limits exactly when the rate is zero, or it is at least 8 bits/s and
   kubelet's burst in bytes is non-positive or at least the largest burst.
   */
  lemma {:induction false} ChannelsAgree(scale: Scale, decode: Decode, dir: Direction, a: string, d: Option<Defaults>,
                                         bits: int64, burstBits: int64)
    requires a != "" && !IsJson(a) && BandwidthOf(a) == Ok(bits)
    ensures var burst := Quotient(burstBits, 8);
            DirectionConfig(scale, decode, ByAnnotation(dir, a, d), dir) ==
            DirectionConfig(scale, decode, ByKubelet(bits, burstBits, d), dir)
            <==>
            (bits == 0 || (bits >= 8 && (burst <= 0 || burst >= MaxBurst(scale, d, Quotient(bits, 8)))))
  {
    AnnotationChannel(scale, decode, dir, a, d, bits);
  }

  /**
   An explicit per-pod threshold survives the cluster defaults exactly when it differs from the
   compiled-in one, or the defaults happen to resolve to it.
   */
  lemma {:induction false} ExplicitThresholdKept(scale: Scale, decode: Decode, d: Option<Defaults>, a: string)
    requires a != "" && IsJson(a) && decode(a).Some? && decode(a).value.hh > 0
    requires FromAnnotation(scale, decode, d, a).Some?
    ensures var raw, cfg := decode(a).value, FromAnnotation(scale, decode, d, a).value;
            cfg.hh == raw.hh <==> HHKept(d, cfg.rate, raw.hh)
  {
  }

  predicate HHKept(d: Option<Defaults>, rate: int64, hh: int64) {
    hh != 262_144 || ResolveHHThreshold(d, rate) == 262_144
  }

  predicate BurstKept(scale: Scale, d: Option<Defaults>, rate: int64, burst: int64) {
    || d.None? || d.value.burstRatio <= 0.0
    || burst != DefaultBurstFor(scale, rate)
    || AtLeastMin(scale(rate, d.value.burstRatio)) == burst
  }

  /**
   "Explicit per-pod values win" for a JSON annotation that gives both a burst and a threshold, exactly
   when the defaults leave each of them: a threshold other than the compiled-in one, and a burst other
   than the compiled-in share of the rate unless no ratio is configured; or the defaults resolve to the
   same numbers.
   */
  lemma {:induction false} ExplicitValuesWin(scale: Scale, decode: Decode, d: Option<Defaults>, a: string, burst: int64)
    requires a != "" && IsJson(a) && decode(a).Some? && decode(a).value.hh > 0
    requires decode(a).value.burst != "" && BandwidthOf(decode(a).value.burst) == Ok(burst)
    requires FromAnnotation(scale, decode, d, a).Some?
    ensures var raw, cfg := decode(a).value, FromAnnotation(scale, decode, d, a).value;
            && (cfg.burst == Quotient(burst, 8) <==> BurstKept(scale, d, cfg.rate, Quotient(burst, 8)))
            && (cfg.burst == Quotient(burst, 8) && cfg.hh == raw.hh <==>
                BurstKept(scale, d, cfg.rate, Quotient(burst, 8)) && HHKept(d, cfg.rate, raw.hh))
  {
    ExplicitThresholdKept(scale, decode, d, a);
  }

  lemma {:induction false} Megabits(n: nat, s: string)
    requires n < 10 && s == [(n as char) + '0', 'M']
    ensures BandwidthOf(s) == Ok(n * 1_000_000)
  {
    assert ToUpper("M") == "M";
    assert Digits(n) == [(n as char) + '0'];
    assert s == Digits(n) + "M";
    ParseInvertsPrint(n, "M");
  }

  /** Asking for half a second of 8 Mbit/s under a configured ratio of 2 gets two seconds instead. */
  lemma {:induction false} ExplicitBurstOverwritten(scale: Scale, decode: Decode, a: string)
    requires a != "" && IsJson(a) && decode(a) == Some(Raw("8M", "4M", 131_072))
    requires scale(1_000_000, 0.5) == 500_000 && scale(1_000_000, 2.0) == 2_000_000
    ensures FromAnnotation(scale, decode, Some(Defaults(0, 0, 2.0)), a) == Some(Config(1_000_000, 2_000_000, 131_072))
  {
    Megabits(8, "8M");
    Megabits(4, "4M");
  }

  // ---------------------------------------------------------------- which number ends where

  /** The extended form is told by its first character after blanks. */
  lemma {:induction false} JsonByFirstCharacter(a: string, i: nat)
    requires i < |a| && AllBlank(a[..i]) && !Blank(a[i])
    ensures IsJson(a) <==> a[i] == '{'
  {
    var b, k := TrimSplits(a);
    BlankEnds(a, i, |a|);
    BlankEnds(a, b, k);
    assert b == i;
  }

  /** The threshold of a direction, in numbers: the cluster's own, or 100 ms of the rate, 16 KiB at least. */
  ghost predicate ThresholdIs(d: Option<Defaults>, rate: int64, hh: int64) {
    if d.Some? && d.value.hh > 0 then hh == d.value.hh else
      var ms := if d.Some? && d.value.fastPassMs > 0 then d.value.fastPassMs else 100;
      0 <= rate * ms < 0x8000_0000_0000_0000 ==> hh == if rate * ms / 1000 < 16384 then 16384 else rate * ms / 1000
  }

  /** The largest burst: half a second of the rate or the cluster's share, 64 KiB at least. */
  ghost predicate LargestBurst(scale: Scale, d: Option<Defaults>, rate: int64, top: int64) {
    var share := scale(rate, if d.Some? && d.value.burstRatio > 0.0 then d.value.burstRatio else 0.5);
    top == if share < 65536 then 65536 else share
  }

  lemma {:induction false} ThresholdInNumbers(d: Option<Defaults>, rate: int64)
    requires 0 <= rate
    ensures ThresholdIs(d, rate, ResolveHHThreshold(d, rate)) && 0 < ResolveHHThreshold(d, rate)
  {
    if !(d.Some? && d.value.hh > 0) {
      ThresholdFormula(d, rate);
    }
  }

  /** What kubelet's numbers for one direction become, in bytes: a burst within bounds is kept as sent. */
  ghost predicate KubeletLimits(scale: Scale, d: Option<Defaults>, rateBits: int64, burstBits: int64, c: Config) {
    && c.rate == rateBits / 8
    && (exists top :: LargestBurst(scale, d, c.rate, top) &&
          c.burst == if 8 <= burstBits && burstBits / 8 <= top then burstBits / 8 else top)
    && ThresholdIs(d, c.rate, c.hh)
  }

  lemma {:induction false} KubeletInNumbers(scale: Scale, d: Option<Defaults>, rateBits: int64, burstBits: int64)
    requires 0 < rateBits
    ensures KubeletLimits(scale, d, rateBits, burstBits, FromKubelet(scale, d, rateBits, burstBits))
  {
    var rate := Quotient(rateBits, 8);
    ThresholdInNumbers(d, rate);
    assert LargestBurst(scale, d, rate, MaxBurst(scale, d, rate));
  }

  /** Kubelet's ingress numbers limit ingress and its egress numbers egress, whatever the annotations say. */
  lemma {:induction false} KubeletReachesItsDirection(scale: Scale, decode: Decode, conf: NetConf, k: Kubelet)
    requires conf.bandwidth == Some(k)
    ensures k.ingressRate > 0 ==>
              var r := DirectionConfig(scale, decode, conf, Ingress);
              r.Some? && KubeletLimits(scale, conf.defaults, k.ingressRate, k.ingressBurst, r.value)
    ensures k.egressRate > 0 ==>
              var r := DirectionConfig(scale, decode, conf, Egress);
              r.Some? && KubeletLimits(scale, conf.defaults, k.egressRate, k.egressBurst, r.value)
  {
    if k.ingressRate > 0 {
      KubeletInNumbers(scale, conf.defaults, k.ingressRate, k.ingressBurst);
    }
    if k.egressRate > 0 {
      KubeletInNumbers(scale, conf.defaults, k.egressRate, k.egressBurst);
    }
  }

  /** Each annotation limits its own direction and no other, when kubelet is silent about it. */
  lemma {:induction false} AnnotationReachesItsDirection(scale: Scale, decode: Decode, conf: NetConf, notes: map<string, string>)
    requires conf.annotations == Some(notes)
    ensures conf.bandwidth.None? || conf.bandwidth.value.ingressRate <= 0 ==>
              DirectionConfig(scale, decode, conf, Ingress) ==
              if "kubernetes.io/ingress-bandwidth" in notes
              then FromAnnotation(scale, decode, conf.defaults, notes["kubernetes.io/ingress-bandwidth"]) else None
    ensures conf.bandwidth.None? || conf.bandwidth.value.egressRate <= 0 ==>
              DirectionConfig(scale, decode, conf, Egress) ==
              if "kubernetes.io/egress-bandwidth" in notes
              then FromAnnotation(scale, decode, conf.defaults, notes["kubernetes.io/egress-bandwidth"]) else None
  {
  }

  /** What a simple annotation of so many bits becomes. */
  lemma {:induction false} AnnotationInNumbers(scale: Scale, decode: Decode, d: Option<Defaults>, a: string, bits: int64)
    requires a != "" && !IsJson(a) && BandwidthOf(a) == Ok(bits)
    ensures 0 <= bits
    ensures var r := FromAnnotation(scale, decode, d, a);
            if bits < 8 then r == None else
              && r.Some? && r.value.rate == bits / 8
              && LargestBurst(scale, d, bits / 8, r.value.burst) && ThresholdIs(d, bits / 8, r.value.hh)
  {
    AnnotationChannel(scale, decode, Ingress, a, d, bits);
    ThresholdInNumbers(d, Quotient(bits, 8));
  }

  /** What the extended form becomes: its own burst and threshold where given, else those of the simple form. */
  lemma {:induction false} JsonInNumbers(scale: Scale, decode: Decode, d: Option<Defaults>, a: string, bits: int64)
    requires a != "" && IsJson(a) && decode(a).Some? && decode(a).value.rate != "" && BandwidthOf(decode(a).value.rate) == Ok(bits)
    requires decode(a).value.burst == "" || BandwidthOf(decode(a).value.burst).Ok?
    ensures 0 <= bits
    ensures var raw, r := decode(a).value, FromAnnotation(scale, decode, d, a);
            if bits < 8 then r == None else
              && r.Some? && r.value.rate == bits / 8
              && (raw.burst == "" ==> LargestBurst(scale, d, bits / 8, r.value.burst))
              && (raw.burst != "" && BurstKept(scale, d, bits / 8, BandwidthOf(raw.burst).value / 8) ==>
                    r.value.burst == BandwidthOf(raw.burst).value / 8)
              && (raw.hh <= 0 ==> ThresholdIs(d, bits / 8, r.value.hh))
              && (raw.hh > 0 && HHKept(d, bits / 8, raw.hh) ==> r.value.hh == raw.hh)
  {
    var raw := decode(a).value;
    AcceptedIsCapped(raw.rate);
    AcceptedIsCapped(raw.burst);
    ThresholdInNumbers(d, Quotient(bits, 8));
  }

  /** Whatever the channel, a direction gets limits that pass Validate. */
  lemma {:induction false} ResolvedLimitsValidate(scale: Scale, decode: Decode, conf: NetConf, dir: Direction)
    ensures var r := DirectionConfig(scale, decode, conf, dir); r.Some? ==> Validate(r.value)
  {
    var r := DirectionConfig(scale, decode, conf, dir);
    if r.Some? {
      if conf.bandwidth.Some? && RateBits(conf.bandwidth.value, dir) > 0 {
        ThresholdInNumbers(conf.defaults, r.value.rate);
      } else {
        var a := conf.annotations.value[AnnotationKey(dir)];
        AcceptedConfigsValidate(scale, decode, a);
        ThresholdInNumbers(conf.defaults, AnnotationConfig(scale, decode, a).cfg.rate);
      }
    }
  }
}
