/** The transport selection of lib/smartcard/iso/auto_configurator.rb: the
    SCARD_PORT configuration string (given here as a parameter, nil when
    the variable is unset) names a JCOP simulator (`:port`, `@host:port`),
    a PC/SC reader by position (`#n`) or by name; without it the default
    configurations are tried in order. Whether a transport can be created
    and connected is a parameter too. */
module AutoConfigurator {
  import opened Wrappers

  datatype TransportClass = JcopRemoteTransport | PcscTransport

  datatype Options =
    | Remote(host: string, port: int)
    | ReaderIndex(index: int)
    | ReaderName(name: string)

  /** A configuration hash: the transport class (which may be missing in a
      hand-made hash) and the constructor options. */
  datatype Configuration = Configuration(transportClass: Option<TransportClass>, opts: Options)

  const DefaultPort := 8050
  const Localhost: string := "127.0.0.1"

  /** DEFAULT_CONFIGURATIONS. */
  const DefaultConfigurations: seq<Configuration> := [
    Configuration(Some(JcopRemoteTransport), Remote(Localhost, DefaultPort)),
    Configuration(Some(PcscTransport), ReaderIndex(0))]

  // ---------------------------------------------------------------------
  // Ruby's String#to_i

  predicate IsDigit(c: char)
  {
    '0' <= c <= '9'
  }

  predicate IsSpace(c: char)
  {
    c == ' ' || c == '\t' || c == '\n' || c == '\r' || c == '\U{B}' || c == '\U{C}'
  }

  /** The leading white space and underscores to_i passes over. */
  function SkipSpace(s: string): (r: string)
    ensures |r| <= |s| && (r == [] || (!IsSpace(r[0]) && r[0] != '_'))
  {
    if s != [] && (IsSpace(s[0]) || s[0] == '_') then SkipSpace(s[1..]) else s
  }

  /** The digits to_i reads: a run of digits in which a single underscore
      may separate two digits. */
  function LeadingDigits(s: string): (r: string)
    ensures forall i :: 0 <= i < |r| ==> IsDigit(r[i])
    decreases |s|
  {
    if s == [] || !IsDigit(s[0]) then []
    else if |s| >= 3 && s[1] == '_' && IsDigit(s[2]) then [s[0]] + LeadingDigits(s[2..])
    else [s[0]] + LeadingDigits(s[1..])
  }

  /** The digits after the sign and the radix prefix, of which the first
      may be preceded by a single underscore. */
  function Digits(s: string): (r: string)
    ensures forall i :: 0 <= i < |r| ==> IsDigit(r[i])
  {
    if |s| >= 2 && s[0] == '_' && IsDigit(s[1]) then LeadingDigits(s[1..]) else LeadingDigits(s)
  }

  /** The optional decimal radix prefix `0d` or `0D`. */
  function SkipRadix(s: string): (r: string)
    ensures |r| <= |s|
  {
    if |s| >= 2 && s[0] == '0' && (s[1] == 'd' || s[1] == 'D') then s[2..] else s
  }

  /** The value of a string of decimal digits, the last one the units. */
  function DigitsValue(ds: string): nat
  {
    if ds == [] then 0 else DigitsValue(ds[..|ds| - 1]) * 10 + (if IsDigit(ds[|ds| - 1]) then (ds[|ds| - 1] - '0') as nat else 0)
  }

  /** The magnitude to_i reads once the sign is taken. */
  function Magnitude(s: string): nat
  {
    DigitsValue(Digits(SkipRadix(s)))
  }

  /** `s.to_i`: leading white space and underscores, an optional sign, an
      optional `0d`, then the digits; 0 when there are none. */
  function ToI(s: string): int
  {
    var t := SkipSpace(s);
    if t != [] && t[0] == '-' then -(Magnitude(t[1..]) as int)
    else if t != [] && t[0] == '+' then Magnitude(t[1..])
    else Magnitude(t)
  }

  /** The decimal digits of n, as `n.to_s` writes them. */
  function Decimal(n: nat): (r: string)
    ensures |r| >= 1 && forall i :: 0 <= i < |r| ==> IsDigit(r[i])
  {
    if n < 10 then [('0' as int + n) as char] else Decimal(n / 10) + [('0' as int + n % 10) as char]
  }

  lemma {:induction false} DecimalValue(n: nat)
    ensures DigitsValue(Decimal(n)) == n
  {
    var r := Decimal(n);
    if n < 10 {
      assert r[..0] == [];
    } else {
      assert r[..|r| - 1] == Decimal(n / 10);
      DecimalValue(n / 10);
    }
  }

  lemma {:induction false} LeadingAllDigits(ds: string)
    requires forall i :: 0 <= i < |ds| ==> IsDigit(ds[i])
    ensures LeadingDigits(ds) == ds
  {
    if ds != [] {
      assert forall i :: 0 <= i < |ds[1..]| ==> IsDigit(ds[1..][i]) by {
        forall i | 0 <= i < |ds[1..]|
          ensures IsDigit(ds[1..][i])
        {
          assert ds[1..][i] == ds[i + 1];
        }
      }
      LeadingAllDigits(ds[1..]);
      assert [ds[0]] + ds[1..] == ds;
    }
  }

  /** Only the numeral of zero starts with the digit 0. */
  lemma {:induction false} DecimalLead(n: nat)
    ensures Decimal(n)[0] == '0' ==> n == 0
  {
    if n >= 10 {
      DecimalLead(n / 10);
      assert Decimal(n)[0] == Decimal(n / 10)[0];
    }
  }

  /** A numeral reads as its digits alone: no radix prefix, no underscore. */
  lemma DecimalMagnitude(n: nat)
    ensures Magnitude(Decimal(n)) == n
  {
    DecimalLead(n);
    assert SkipRadix(Decimal(n)) == Decimal(n);
    LeadingAllDigits(Decimal(n));
    DecimalValue(n);
  }

  /** to_i reads back what to_s writes. */
  lemma ToIDecimal(n: nat)
    ensures ToI(Decimal(n)) == n
  {
    assert SkipSpace(Decimal(n)) == Decimal(n);
    DecimalMagnitude(n);
  }

  /** to_i reads a negative numeral and a numeral with the `0d` prefix. */
  lemma ToISigned(n: nat)
    ensures ToI("-" + Decimal(n)) == -(n as int)
    ensures ToI("0d" + Decimal(n)) == n && ToI("0D" + Decimal(n)) == n
  {
    assert SkipSpace("-" + Decimal(n)) == "-" + Decimal(n);
    assert ("-" + Decimal(n))[1..] == Decimal(n);
    DecimalMagnitude(n);
    assert SkipSpace("0d" + Decimal(n)) == "0d" + Decimal(n);
    assert SkipSpace("0D" + Decimal(n)) == "0D" + Decimal(n);
    assert SkipRadix("0d" + Decimal(n)) == Decimal(n);
    assert SkipRadix("0D" + Decimal(n)) == Decimal(n);
    LeadingAllDigits(Decimal(n));
    DecimalValue(n);
  }

  // ---------------------------------------------------------------------
  // env_configuration

  /** `conf.rindex(c)`. */
  function LastIndexOf(s: string, c: char): (r: Option<nat>)
    ensures r.Some? ==> r.value < |s| && s[r.value] == c && forall j :: r.value < j < |s| ==> s[j] != c
    ensures r.None? ==> forall j :: 0 <= j < |s| ==> s[j] != c
  {
    if s == [] then None
    else if s[|s| - 1] == c then Some(|s| - 1)
    else LastIndexOf(s[..|s| - 1], c)
  }

  /** The option fix-ups at the end of env_configuration: port 0 becomes
      8050, a negative reader index becomes 0. */
  function FixUp(opts: Options): Options
  {
    match opts
    case Remote(h, p) => if p == 0 then Remote(h, DefaultPort) else opts
    case ReaderIndex(i) => if i < 0 then ReaderIndex(0) else opts
    case ReaderName(_) => opts
  }

  /** env_configuration, the variable's value given as a parameter. */
  function EnvConfiguration(env: Option<string>): (r: Option<Configuration>)
    ensures r.Some? <==> env.Some?
    ensures r.Some? ==> r.value.transportClass.Some?
    ensures r.Some? && r.value.opts.Remote? ==> r.value.opts.port != 0
    ensures r.Some? && r.value.opts.ReaderIndex? ==> r.value.opts.index >= 0
  {
    if env.None? then None
    else
      var conf := env.value;
      var c :=
        if conf != [] && conf[0] == ':' then
          Configuration(Some(JcopRemoteTransport), Remote(Localhost, ToI(conf[1..])))
        else if conf != [] && conf[0] == '@' then
          var portIndex := match LastIndexOf(conf, ':') case Some(i) => i case None => |conf|;
          var port := if portIndex + 1 <= |conf| then ToI(conf[portIndex + 1..]) else 0;
          Configuration(Some(JcopRemoteTransport), Remote(conf[1..portIndex], port))
        else if conf != [] && conf[0] == '#' then
          Configuration(Some(PcscTransport), ReaderIndex(ToI(conf[1..]) - 1))
        else
          Configuration(Some(PcscTransport), ReaderName(conf));
      Some(Configuration(c.transportClass, FixUp(c.opts)))
  }

  /** `:port` names the simulator on this machine; port 0 or none means 8050. */
  lemma LocalPort(port: nat)
    ensures EnvConfiguration(Some(":" + Decimal(port)))
         == Some(Configuration(Some(JcopRemoteTransport), Remote(Localhost, if port == 0 then DefaultPort else port)))
  {
    assert (":" + Decimal(port))[1..] == Decimal(port);
    ToIDecimal(port);
  }

  /** In `@host:digits`, the last colon is the one before the digits. */
  lemma HostDigitsSplit(conf: string, host: string, digits: string)
    requires conf == "@" + host + ":" + digits
    requires forall j :: 0 <= j < |digits| ==> IsDigit(digits[j])
    ensures LastIndexOf(conf, ':') == Some(|host| + 1)
    ensures conf[1..|host| + 1] == host
    ensures conf[|host| + 2..] == digits
  {
    var i := |host| + 1;
    assert conf[i] == ':';
    forall j | i < j < |conf|
      ensures conf[j] != ':'
    {
      assert conf[j] == digits[j - i - 1];
    }
    LastIndexOfIs(conf, ':', i);
    assert conf[1..i] == host;
    assert conf[i + 1..] == digits;
  }

  /** `@host:port` splits at the last colon, so the host may itself hold
      colons (an IPv6 address). */
  lemma HostPort(host: string, port: nat)
    ensures EnvConfiguration(Some("@" + host + ":" + Decimal(port)))
         == Some(Configuration(Some(JcopRemoteTransport), Remote(host, if port == 0 then DefaultPort else port)))
  {
    HostDigitsSplit("@" + host + ":" + Decimal(port), host, Decimal(port));
    ToIDecimal(port);
  }

  lemma LastIndexOfIs(s: string, c: char, i: nat)
    requires i < |s| && s[i] == c && forall j :: i < j < |s| ==> s[j] != c
    ensures LastIndexOf(s, c) == Some(i)
  {
    if LastIndexOf(s, c) != Some(i) {
      match LastIndexOf(s, c)
      case None =>
      case Some(k) =>
    }
  }

  /** `@host` without a colon names the host alone, at port 8050. */
  lemma HostOnly(host: string)
    requires forall j :: 0 <= j < |host| ==> host[j] != ':'
    ensures EnvConfiguration(Some("@" + host))
         == Some(Configuration(Some(JcopRemoteTransport), Remote(host, DefaultPort)))
  {
    var conf := "@" + host;
    assert forall j :: 0 <= j < |conf| ==> conf[j] != ':' by {
      forall j | 0 <= j < |conf|
        ensures conf[j] != ':'
      {
        if j > 0 {
          assert conf[j] == host[j - 1];
        }
      }
    }
    assert conf[1..|conf|] == host;
  }

  /** `#n` is the n-th reader, counted from 1; 0 and negative counts clamp
      to the first. */
  lemma ReaderPosition(n: nat)
    ensures EnvConfiguration(Some("#" + Decimal(n)))
         == Some(Configuration(Some(PcscTransport), ReaderIndex(if n == 0 then 0 else n - 1)))
  {
    assert ("#" + Decimal(n))[1..] == Decimal(n);
    ToIDecimal(n);
  }

  /** The `0d` radix prefix is read past in a port and in a reader
      position. */
  lemma RadixPort(port: nat)
    ensures EnvConfiguration(Some(":0d" + Decimal(port)))
         == Some(Configuration(Some(JcopRemoteTransport), Remote(Localhost, if port == 0 then DefaultPort else port)))
  {
    assert (":0d" + Decimal(port))[1..] == "0d" + Decimal(port);
    ToISigned(port);
  }

  lemma RadixPosition(n: nat)
    ensures EnvConfiguration(Some("#0d" + Decimal(n)))
         == Some(Configuration(Some(PcscTransport), ReaderIndex(if n == 0 then 0 else n - 1)))
  {
    var conf := "#0d" + Decimal(n);
    assert conf[0] == '#' && conf[1..] == "0d" + Decimal(n);
    ToISigned(n);
    assert ToI(conf[1..]) - 1 == n - 1;
  }

  /** Any other string is a reader name, used as it is. */
  lemma ReaderByName(name: string)
    requires name == [] || (name[0] != ':' && name[0] != '@' && name[0] != '#')
    ensures EnvConfiguration(Some(name)) == Some(Configuration(Some(PcscTransport), ReaderName(name)))
  {
  }

  // The spellings the vectors below are written in.
  lemma Spelled6996()
    ensures Decimal(6996) == "6996"
  {
  }

  lemma Spelled9000()
    ensures ":0d" + Decimal(9000) == ":0d9000"
  {
  }

  lemma SpelledMoonstone()
    ensures "@" + "moonstone" + ":" + "6996" == "@moonstone:6996"
  {
  }

  lemma SpelledIpv6()
    ensures "@" + "ff80::0080" + ":" + "6996" == "@ff80::0080:6996"
  {
  }

  /** The vectors of the configurator's test, one lemma each. */
  lemma VectorUnset()
    ensures EnvConfiguration(None) == None
  {
  }

  lemma VectorLocalPort()
    ensures EnvConfiguration(Some(":6996")) == Some(Configuration(Some(JcopRemoteTransport), Remote("127.0.0.1", 6996)))
  {
    LocalPort(6996);
    Spelled6996();
  }

  lemma VectorLocalNoPort()
    ensures EnvConfiguration(Some(":")) == Some(Configuration(Some(JcopRemoteTransport), Remote("127.0.0.1", 8050)))
  {
    assert ":"[1..] == [];
  }

  lemma VectorHostPort()
    ensures EnvConfiguration(Some("@moonstone:6996")) == Some(Configuration(Some(JcopRemoteTransport), Remote("moonstone", 6996)))
  {
    HostPort("moonstone", 6996);
    Spelled6996();
    SpelledMoonstone();
  }

  lemma VectorHostOnly()
    ensures EnvConfiguration(Some("@moonstone")) == Some(Configuration(Some(JcopRemoteTransport), Remote("moonstone", 8050)))
  {
    HostOnly("moonstone");
    assert "@" + "moonstone" == "@moonstone";
  }

  lemma VectorIpv6Port()
    ensures EnvConfiguration(Some("@ff80::0080:6996")) == Some(Configuration(Some(JcopRemoteTransport), Remote("ff80::0080", 6996)))
  {
    HostPort("ff80::0080", 6996);
    Spelled6996();
    SpelledIpv6();
  }

  lemma VectorReaderIndex()
    ensures EnvConfiguration(Some("#1")) == Some(Configuration(Some(PcscTransport), ReaderIndex(0)))
  {
    assert Decimal(1) == "1";
    ReaderPosition(1);
    assert "#" + Decimal(1) == "#1";
  }

  /** The decimal radix prefix in a port and in a reader position. */
  lemma VectorRadixPort()
    ensures EnvConfiguration(Some(":0d9000")) == Some(Configuration(Some(JcopRemoteTransport), Remote("127.0.0.1", 9000)))
  {
    RadixPort(9000);
    Spelled9000();
  }

  lemma VectorRadixIndex()
    ensures EnvConfiguration(Some("#0d2")) == Some(Configuration(Some(PcscTransport), ReaderIndex(1)))
  {
    RadixPosition(2);
    assert "#0d" + Decimal(2) == "#0d2";
  }

  lemma VectorReaderName()
    ensures EnvConfiguration(Some("Awesome Reader")) == Some(Configuration(Some(PcscTransport), ReaderName("Awesome Reader")))
  {
    ReaderByName("Awesome Reader");
  }

  /** The IPv6 vector with an empty port. */
  lemma EnvVectorEmptyPort()
    ensures EnvConfiguration(Some("@ff80::0080:")) == Some(Configuration(Some(JcopRemoteTransport), Remote("ff80::0080", 8050)))
  {
    var conf := "@ff80::0080:";
    LastIndexOfIs(conf, ':', 11);
    assert conf[1..11] == "ff80::0080";
    assert conf[12..] == [];
  }

  // ---------------------------------------------------------------------
  // try_transport and auto_transport

  datatype ConfigError = NoTransportClass

  /** try_transport: a configuration without a class raises; otherwise the
      connected transport, or nil when construction or connect raises.
      `connects` says which configurations yield a connected transport. */
  function TryTransport(config: Configuration, connects: Configuration -> bool): (r: Result<Option<Configuration>, ConfigError>)
    ensures config.transportClass.None? <==> r.Failure?
    ensures r.Success? ==> (r.value.Some? <==> connects(config)) && (r.value.Some? ==> r.value.value == config)
  {
    if config.transportClass.None? then Failure(NoTransportClass)
    else if connects(config) then Success(Some(config))
    else Success(None)
  }

  /** The first of the configurations that connects. */
  function FirstConnecting(configs: seq<Configuration>, connects: Configuration -> bool): (r: Option<Configuration>)
    ensures r.Some? ==> r.value in configs && connects(r.value)
    ensures r.None? ==> forall c :: c in configs ==> !connects(c)
  {
    if configs == [] then None
    else if connects(configs[0]) then Some(configs[0])
    else FirstConnecting(configs[1..], connects)
  }

  /** auto_transport: the configured transport if SCARD_PORT is set (and
      nothing else then), otherwise the first default that connects. */
  method AutoTransport(env: Option<string>, connects: Configuration -> bool) returns (r: Option<Configuration>)
    ensures EnvConfiguration(env).Some? ==>
      r == (if connects(EnvConfiguration(env).value) then EnvConfiguration(env) else None)
    ensures EnvConfiguration(env).None? ==> r == FirstConnecting(DefaultConfigurations, connects)
  {
    var configuration := EnvConfiguration(env);
    if configuration.Some? {
      var t := TryTransport(configuration.value, connects);
      return t.value;
    }
    var i := 0;
    while i < |DefaultConfigurations|
      invariant i <= |DefaultConfigurations|
      invariant FirstConnecting(DefaultConfigurations, connects) == FirstConnecting(DefaultConfigurations[i..], connects)
    {
      var t := TryTransport(DefaultConfigurations[i], connects);
      assert DefaultConfigurations[i..][1..] == DefaultConfigurations[i + 1..];
      if t.value.Some? {
        return t.value;
      }
      i := i + 1;
    }
    return None;
  }

  /** Without SCARD_PORT the simulator is preferred, and the first PC/SC
      reader is the fallback. */
  lemma DefaultsOrder(connects: Configuration -> bool)
    ensures connects(DefaultConfigurations[0]) ==>
      FirstConnecting(DefaultConfigurations, connects) == Some(Configuration(Some(JcopRemoteTransport), Remote("127.0.0.1", 8050)))
    ensures !connects(DefaultConfigurations[0]) && connects(DefaultConfigurations[1]) ==>
      FirstConnecting(DefaultConfigurations, connects) == Some(Configuration(Some(PcscTransport), ReaderIndex(0)))
  {
    assert DefaultConfigurations[1..][1..] == [];
  }
}
