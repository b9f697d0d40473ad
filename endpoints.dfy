/** The RPC wrappers of src/shellyDevice.h: every one of them is a single
    call of `GET` with a method string built from a constant name and, for
    the component wrappers, the `uint8_t` instance id (default 0) and, for
    `CoverGoToPosition`, the position (default 100). */
module ShellyEndpoints {
  import opened Wrappers
  import opened ArduinoString
  import opened DigestAuth
  import opened ShellyDevice

  /** The wrappers without an argument: `shelly*` and `WiFiGet*`. */
  datatype FixedMethod =
    | ShellyGetStatus | ShellyGetConfig | ShellyListMethods | ShellyGetDeviceInfo
    | ShellyCheckForUpdate | ShellyGetComponents
    | WiFiGetConfig | WiFiGetStatus

  /** The wrappers taking only an instance id. */
  datatype IdMethod =
    | InputGetConfig | InputGetStatus
    | CoverGetConfig | CoverGetStatus | CoverOpen | CoverClose | CoverStop
    | SwitchToggle | SwitchGetConfig | SwitchGetStatus
    | TemperatureGetConfig | TemperatureGetStatus
    | EMGetConfig | EMGetStatus
    | EM1GetConfig | EM1GetStatus

  /** One wrapper call with its arguments; the defaults are those of the
      C++ declarations. */
  datatype Call =
    | Fixed(f: FixedMethod)
    | WithId(m: IdMethod, id: Byte := 0)
    | GoToPosition(pos: Byte := 100, id: Byte := 0)

  function FixedName(f: FixedMethod): string {
    match f
    case ShellyGetStatus => "shelly.GetStatus"
    case ShellyGetConfig => "shelly.GetConfig"
    case ShellyListMethods => "shelly.ListMethods"
    case ShellyGetDeviceInfo => "shelly.GetDeviceInfo"
    case ShellyCheckForUpdate => "shelly.CheckForUpdate"
    case ShellyGetComponents => "shelly.GetComponents"
    case WiFiGetConfig => "WiFi.GetConfig"
    case WiFiGetStatus => "WiFi.GetStatus"
  }

  function IdName(m: IdMethod): string {
    match m
    case InputGetConfig => "Input.GetConfig"
    case InputGetStatus => "Input.GetStatus"
    case CoverGetConfig => "Cover.GetConfig"
    case CoverGetStatus => "Cover.GetStatus"
    case CoverOpen => "Cover.Open"
    case CoverClose => "Cover.Close"
    case CoverStop => "Cover.Stop"
    case SwitchToggle => "Switch.Toggle"
    case SwitchGetConfig => "Switch.GetConfig"
    case SwitchGetStatus => "Switch.GetStatus"
    case TemperatureGetConfig => "Temperature.GetConfig"
    case TemperatureGetStatus => "Temperature.GetStatus"
    case EMGetConfig => "EM.GetConfig"
    case EMGetStatus => "EM.GetStatus"
    case EM1GetConfig => "EM1.GetConfig"
    case EM1GetStatus => "EM1.GetStatus"
  }

  const GoToPositionName: string := "Cover.GoToPosition"

  /** The arguments of a component wrapper: `"?id=" + String(id)`. */
  function IdArgs(id: Byte): string {
    "?id=" + NatToDecimal(id)
  }

  /** The arguments of `CoverGoToPosition`:
      `"?id=" + String(id) + "&pos=" + String(pos)`. */
  function PositionArgs(pos: Byte, id: Byte): string {
    IdArgs(id) + "&pos=" + NatToDecimal(pos)
  }

  /** The string a wrapper passes to `GET`. */
  function Path(c: Call): string {
    match c
    case Fixed(f) => FixedName(f)
    case WithId(m, id) => IdName(m) + IdArgs(id)
    case GoToPosition(pos, id) => GoToPositionName + PositionArgs(pos, id)
  }

  /** The wrapper itself: `GET(Path(c))` on device `d`. */
  method Invoke(d: Device, http: HttpClient, sha: Hash, cnonce: CNonce, c: Call) returns (payload: string)
    modifies http
    ensures var o := Exchange(d, Path(c), http.respond, old(http.log), sha, cnonce);
      http.log == old(http.log) + o.requests && payload == o.payload
    ensures !http.connected
  {
    payload := Get(d, http, sha, cnonce, Path(c));
  }

  // ---------------------------------------------------------------------
  // Reading a method string back

  /** Every wrapper without an argument, and every wrapper taking an id. */
  const AllFixed: seq<FixedMethod> := [ShellyGetStatus, ShellyGetConfig, ShellyListMethods, ShellyGetDeviceInfo,
                                       ShellyCheckForUpdate, ShellyGetComponents, WiFiGetConfig, WiFiGetStatus]
  const AllIds: seq<IdMethod> := [InputGetConfig, InputGetStatus, CoverGetConfig, CoverGetStatus, CoverOpen,
                                  CoverClose, CoverStop, SwitchToggle, SwitchGetConfig, SwitchGetStatus,
                                  TemperatureGetConfig, TemperatureGetStatus, EMGetConfig, EMGetStatus,
                                  EM1GetConfig, EM1GetStatus]

  /** The first of `ms` whose name is `p`. */
  function Find<T>(ms: seq<T>, name: T -> string, p: string): (r: Option<T>)
    ensures r.Some? ==> r.value in ms && name(r.value) == p
  {
    if |ms| == 0 then None
    else if name(ms[0]) == p then Some(ms[0])
    else
      var r := Find(ms[1..], name, p);
      assert r.Some? ==> r.value in ms by {
        if r.Some? {
          var i :| 0 <= i < |ms[1..]| && ms[1..][i] == r.value;
          assert ms[i + 1] == r.value;
        }
      }
      r
  }

  function FixedOf(p: string): (r: Option<FixedMethod>)
    ensures r.Some? ==> FixedName(r.value) == p
  {
    Find(AllFixed, FixedName, p)
  }

  function IdOf(p: string): (r: Option<IdMethod>)
    ensures r.Some? ==> IdName(r.value) == p
  {
    Find(AllIds, IdName, p)
  }

  /** The value of a `uint8_t` argument written as `String(uint8_t)` writes
      it: decimal digits without leading zeros, below 256. */
  function ByteOf(s: string): (r: Option<Byte>)
    ensures r.Some? ==> NatToDecimal(r.value) == s
  {
    if |s| > 0 && AllDigits(s) && DecimalValue(s) < 256 && NatToDecimal(DecimalValue(s)) == s
    then Some(DecimalValue(s)) else None
  }

  /** The arguments `?id=<id>` of a component wrapper. */
  function IdArgOf(a: string): (r: Option<Byte>)
    ensures r.Some? ==> a == IdArgs(r.value)
  {
    if |a| >= 4 && a[..4] == "?id=" then
      var id := ByteOf(a[4..]);
      if id.Some? then
        assert a == a[..4] + a[4..];
        Some(id.value)
      else None
    else None
  }

  /** The arguments `?id=<id>&pos=<pos>` of `CoverGoToPosition`. */
  function PositionArgsOf(a: string): (r: Option<(Byte, Byte)>)
    ensures r.Some? ==> a == PositionArgs(r.value.0, r.value.1)
  {
    var k := IndexOfChar(a, '&', 0);
    if k < 0 then None
    else
      var ids, poss := IdArgOf(a[..k]), a[k..];
      if ids.Some? && |poss| >= 5 && poss[..5] == "&pos=" then
        var pos := ByteOf(poss[5..]);
        if pos.Some? then
          assert a == a[..k] + (poss[..5] + poss[5..]);
          Some((pos.value, ids.value))
        else None
      else None
  }

  /** The wrapper call of a method string that has arguments. */
  function QueryOf(name: string, args: string): (r: Option<Call>)
    ensures r.Some? ==> Path(r.value) == name + args
  {
    if name == GoToPositionName then
      var a := PositionArgsOf(args);
      if a.Some? then Some(GoToPosition(a.value.0, a.value.1)) else None
    else
      var m, id := IdOf(name), IdArgOf(args);
      if m.Some? && id.Some? then Some(WithId(m.value, id.value)) else None
  }

  /** The wrapper call a method string was built by, if any: the part before
      the first `?` names the wrapper, the rest holds its arguments. */
  function ParsePath(p: string): (r: Option<Call>)
    ensures r.Some? ==> Path(r.value) == p
  {
    var q := IndexOfChar(p, '?', 0);
    if q < 0 then
      var f := FixedOf(p);
      if f.Some? then Some(Fixed(f.value)) else None
    else
      assert p == p[..q] + p[q..];
      QueryOf(p[..q], p[q..])
  }

  // ---------------------------------------------------------------------
  // Properties of the method strings

  /** The first occurrence of `c` is at `k` when `c` sits there and not before. */
  lemma FirstChar(s: string, c: char, k: nat)
    requires k < |s| && s[k] == c && c !in s[..k]
    ensures IndexOfChar(s, c, 0) == k
  {
    assert forall j :: 0 <= j < k ==> s[..k][j] == s[j];
    var r := IndexOfChar(s, c, 0);
    if r >= 0 {
      assert forall j :: 0 <= j < r ==> s[0..r][j] == s[j];
    }
  }

  lemma DecimalHasNoSeparator(n: nat)
    ensures '?' !in NatToDecimal(n) && '&' !in NatToDecimal(n)
  {
    var s := NatToDecimal(n);
    assert forall i :: 0 <= i < |s| ==> IsDigit(s[i]);
  }

  /** Whatever is listed is found by its name. */
  lemma {:induction false} FindListed<T>(ms: seq<T>, name: T -> string, m: T)
    requires m in ms
    ensures Find(ms, name, name(m)).Some?
  {
    if name(ms[0]) != name(m) {
      assert m in ms[1..] by {
        var i :| 0 <= i < |ms| && ms[i] == m;
        assert i != 0 && ms[1..][i - 1] == m;
      }
      FindListed(ms[1..], name, m);
    }
  }

  lemma FixedNameInjective(f1: FixedMethod, f2: FixedMethod)
    requires FixedName(f1) == FixedName(f2)
    ensures f1 == f2
  {
  }

  lemma IdNameInjective(m1: IdMethod, m2: IdMethod)
    requires IdName(m1) == IdName(m2)
    ensures m1 == m2
  {
  }

  lemma ShellyNames()
    ensures '?' !in "shelly.GetStatus" && '?' !in "shelly.GetConfig" && '?' !in "shelly.ListMethods"
    ensures '?' !in "shelly.GetDeviceInfo" && '?' !in "shelly.CheckForUpdate" && '?' !in "shelly.GetComponents"
  {
  }

  lemma ComponentNames()
    ensures '?' !in "WiFi.GetConfig" && '?' !in "WiFi.GetStatus"
    ensures '?' !in "Input.GetConfig" && '?' !in "Input.GetStatus"
    ensures '?' !in "Switch.Toggle" && '?' !in "Switch.GetConfig" && '?' !in "Switch.GetStatus"
  {
  }

  lemma CoverNames()
    ensures '?' !in "Cover.GetConfig" && '?' !in "Cover.GetStatus" && '?' !in "Cover.Open"
    ensures '?' !in "Cover.Close" && '?' !in "Cover.Stop" && '?' !in "Cover.GoToPosition"
  {
  }

  lemma MeteringNames()
    ensures '?' !in "Temperature.GetConfig" && '?' !in "Temperature.GetStatus"
    ensures '?' !in "EM.GetConfig" && '?' !in "EM.GetStatus" && '?' !in "EM1.GetConfig" && '?' !in "EM1.GetStatus"
  {
  }

  lemma FixedNameRoundTrip(f: FixedMethod)
    ensures FixedOf(FixedName(f)) == Some(f) && '?' !in FixedName(f)
  {
    ShellyNames();
    ComponentNames();
    FindListed(AllFixed, FixedName, f);
    FixedNameInjective(FixedOf(FixedName(f)).value, f);
  }

  lemma IdNameRoundTrip(m: IdMethod)
    ensures IdOf(IdName(m)) == Some(m) && '?' !in IdName(m) && IdName(m) != GoToPositionName
  {
    ComponentNames();
    CoverNames();
    MeteringNames();
    FindListed(AllIds, IdName, m);
    IdNameInjective(IdOf(IdName(m)).value, m);
  }

  lemma ByteRoundTrip(b: Byte)
    ensures ByteOf(NatToDecimal(b)) == Some(b)
  {
    NatToDecimalRoundTrip(b);
  }

  lemma IdArgRoundTrip(id: Byte)
    ensures IdArgOf(IdArgs(id)) == Some(id)
    ensures '&' !in IdArgs(id) && IdArgs(id)[0] == '?'
  {
    var a := IdArgs(id);
    assert a[..4] == "?id=" && a[4..] == NatToDecimal(id);
    ByteRoundTrip(id);
    DecimalHasNoSeparator(id);
  }

  lemma PositionArgsRoundTrip(pos: Byte, id: Byte)
    ensures PositionArgsOf(PositionArgs(pos, id)) == Some((pos, id))
    ensures PositionArgs(pos, id)[0] == '?'
  {
    var head := IdArgs(id);
    var tail := "&pos=" + NatToDecimal(pos);
    var a := PositionArgs(pos, id);
    assert a == head + tail;
    IdArgRoundTrip(id);
    assert a[..|head|] == head && a[|head|..] == tail;
    FirstChar(a, '&', |head|);
    assert tail[..5] == "&pos=" && tail[5..] == NatToDecimal(pos);
    ByteRoundTrip(pos);
  }

  /** The first `?` of a method string with arguments ends the wrapper's name. */
  lemma QueryStart(name: string, args: string)
    requires '?' !in name && |args| > 0 && args[0] == '?'
    ensures IndexOfChar(name + args, '?', 0) == |name|
    ensures (name + args)[..|name|] == name && (name + args)[|name|..] == args
  {
    assert (name + args)[..|name|] == name;
    FirstChar(name + args, '?', |name|);
  }

  lemma FixedRoundTrip(f: FixedMethod)
    ensures ParsePath(Path(Fixed(f))) == Some(Fixed(f))
  {
    FixedNameRoundTrip(f);
    var r := IndexOfChar(FixedName(f), '?', 0);
    assert r < 0;
  }

  lemma WithIdRoundTrip(m: IdMethod, id: Byte)
    ensures ParsePath(Path(WithId(m, id))) == Some(WithId(m, id))
  {
    IdNameRoundTrip(m);
    IdArgRoundTrip(id);
    QueryStart(IdName(m), IdArgs(id));
  }

  lemma GoToPositionRoundTrip(pos: Byte, id: Byte)
    ensures ParsePath(Path(GoToPosition(pos, id))) == Some(GoToPosition(pos, id))
  {
    PositionArgsRoundTrip(pos, id);
    assert '?' !in GoToPositionName;
    QueryStart(GoToPositionName, PositionArgs(pos, id));
  }

  /** Every wrapper call is read back from its method string. */
  lemma {:induction false} PathRoundTrip(c: Call)
    ensures ParsePath(Path(c)) == Some(c)
  {
    match c
    case Fixed(f) => FixedRoundTrip(f);
    case WithId(m, id) => WithIdRoundTrip(m, id);
    case GoToPosition(pos, id) => GoToPositionRoundTrip(pos, id);
  }

  /** A string is parsed exactly when some wrapper call builds it. */
  lemma ParsePathExact(p: string, c: Call)
    ensures ParsePath(p) == Some(c) <==> Path(c) == p
  {
    if Path(c) == p {
      PathRoundTrip(c);
    }
  }

  /** Different wrapper calls, including different ids and positions, send
      different requests. */
  lemma PathInjective(c1: Call, c2: Call)
    requires Path(c1) == Path(c2)
    ensures c1 == c2
  {
    PathRoundTrip(c1);
    PathRoundTrip(c2);
  }

  /** A wrapper call on a device built as `shellyDevice(ip, password)` goes to
      `http://<ip>/rpc/<method string>`, and the defaults give the id 0 and
      the position 100. */
  lemma InvokeUrl(ip: string, password: string, c: Call)
    ensures Url(NewDevice(ip, password), Path(c)) == "http://" + ip + "/rpc/" + Path(c)
  {
  }

  lemma DefaultDecimals()
    ensures NatToDecimal(0) == "0" && NatToDecimal(100) == "100"
  {
    assert DigitChar(0) == '0' && DigitChar(1) == '1';
    assert NatToDecimal(10) == NatToDecimal(1) + "0";
  }

  lemma DefaultArguments(m: IdMethod)
    ensures Path(WithId(m)) == IdName(m) + ("?id=" + "0")
    ensures Path(GoToPosition()) == GoToPositionName + ("?id=" + "0" + "&pos=" + "100")
  {
    DefaultDecimals();
  }
}
