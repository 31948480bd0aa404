/** The two ways to the bus, end to end: the direct path of `LocalBackend`, and
    the path through `DaemonBackend`, an HTTP exchange, the daemon's handlers,
    `CecAdapter` and back. */
module Transports {
  import opened Prelude
  import opened Text
  import opened PythonInt
  import opened HexCodec
  import opened Numerals
  import opened Bindings
  import opened AdapterProtocol

  /** What one call of `_call` or `_run` comes to, whether or not the adapter had
      to be opened for it. */
  type CallOutcome = o: Outcome | !o.Released? witness Answered(true)

  /** One device, as a scan lists it. */
  datatype Entry = Entry(
    address: int, osdString: string, vendor: string, physicalAddress: string, cecVersion: string, isOn: bool)

  /** The adapter behind either transport: what each call comes to, and the
      devices a scan that is answered has found. */
  datatype Adapter = Adapter(run: Method -> CallOutcome, entries: seq<Entry>)

  /** `BackendError`, or its subclass `BackendUnavailable`. */
  datatype BackendFailure = BackendFailure(unavailable: bool, message: string)

  /** What the caller of a backend sees; `Escaped` is an exception of the driver
      that no backend has translated. */
  datatype Reply =
    | Success
    | Devices(entries: seq<Entry>)
    | Failure(error: BackendFailure)
    | Escaped(thrown: Thrown)

  // --------------------------------------------------------------- messages

  /** `f"{n}"` */
  function IntText(n: int): string {
    if n < 0 then "-" + Dec(-n) else Dec(n)
  }

  /** What both ends say when the driver answers false. */
  function Rejection(m: Method): (message: string)
    requires !m.Scan?
    ensures message != ""
  {
    match m
    case SendKey(d, key) => "CEC rejected key 0x" + TwoDigitHex(key) + " to address " + IntText(d)
    case Transmit(d, opcode, _) => "CEC rejected opcode 0x" + TwoDigitHex(opcode) + " to address " + IntText(d)
    case Power(d, on) => (if on then "power on" else "standby") + " to address " + IntText(d) + " was rejected"
    case SetActiveSource => "setting the active source was rejected"
  }

  /** Which of the two power commands, and which message or key, was refused. */
  lemma RejectionSays(d: int, opcode: byte, params: seq<byte>)
    ensures Rejection(Power(d, true)) == "power on to address " + IntText(d) + " was rejected"
    ensures Rejection(Power(d, false)) == "standby to address " + IntText(d) + " was rejected"
    ensures Rejection(Transmit(d, opcode, params)) ==
              "CEC rejected opcode 0x" + [UpperHexChar(opcode / 16), UpperHexChar(opcode % 16)] +
              " to address " + IntText(d)
  {
    TwoDigitsOfByte(opcode);
    assert "power on" + " to address " == "power on to address ";
    assert "standby" + " to address " == "standby to address ";
  }

  // ------------------------------------------------------------ direct path

  /** The driver calls made, and the caller's reply. */
  datatype Exchange = Exchange(calls: seq<Method>, reply: Reply)

  /** `LocalBackend._call` and what its callers make of the answer.  The driver is
      opened outside of the `try`. */
  function LocalReply(m: Method, outcome: CallOutcome, entries: seq<Entry>): Reply {
    match outcome
    case Answered(ok) =>
      if m.Scan? then Devices(entries)
      else if ok then Success
      else Failure(BackendFailure(false, Rejection(m)))
    case Refused(message) => Failure(BackendFailure(true, message))
    case CallRaised(error) =>
      if error.DriverError? then Failure(BackendFailure(error.unavailable, error.text)) else Escaped(error)
    case OpenFailed(error) => Escaped(error)
  }

  function Local(adapter: Adapter, m: Method): Exchange {
    Exchange([m], LocalReply(m, adapter.run(m), adapter.entries))
  }

  // ------------------------------------------------------------ daemon path

  /** HEAD, which aiohttp serves as GET, is not told apart. */
  datatype Verb = Get | Post | OtherVerb

  datatype Path = HealthPath | DevicesPath | TransmitPath | PowerPath | ActiveSourcePath | OtherPath(text: string)

  /** The fields of a JSON body that some handler reads. */
  datatype Fields = Fields(destination: Option<Json>, opcode: Option<Json>, params: Option<Json>, action: Option<Json>)

  const NO_FIELDS := Fields(None, None, None, None)

  /** Anything else goes to the catch-all route. */
  datatype HttpRequest = HttpRequest(verb: Verb, path: Path, fields: Fields)

  datatype HttpBody =
    | Error(message: string)
    | Plain
    | DeviceList(entries: seq<Entry>)
    | Health(ok: bool, detail: string)

  datatype HttpResponse = HttpResponse(status: int, body: HttpBody)

  /** What `DaemonBackend` sends. */
  function Encode(m: Method): HttpRequest
    requires !m.SendKey?
  {
    match m
    case Scan => HttpRequest(Get, DevicesPath, NO_FIELDS)
    case Transmit(d, opcode, params) =>
      HttpRequest(Post, TransmitPath,
                  Fields(Some(JInt(d)), Some(JInt(opcode)), Some(JString(Hex(params))), None))
    case Power(d, on) =>
      HttpRequest(Post, PowerPath, Fields(Some(JInt(d)), None, None, Some(JString(if on then "on" else "off"))))
    case SetActiveSource => HttpRequest(Post, ActiveSourcePath, NO_FIELDS)
  }

  /** `_require_int`; the error is the text of an HTTP 400. */
  function RequireInt(value: Option<Json>, key: string, minimum: int, maximum: int): Result<int, string> {
    if value.None? || value.value.JNull? then Err(key + " is required")
    else if !value.value.JInt? && !value.value.JString? then Err(key + " must be an integer")
    else
      var number := if value.value.JInt? then Some(value.value.number) else ParseInt(value.value.text, 10);
      if number.None? then Err(key + " must be an integer")
      else if minimum <= number.value <= maximum then Ok(number.value)
      else Err(key + " must be between " + IntText(minimum) + " and " + IntText(maximum))
  }

  function PathText(path: Path): string {
    match path
    case HealthPath => "/health"
    case DevicesPath => "/devices"
    case TransmitPath => "/transmit"
    case PowerPath => "/power"
    case ActiveSourcePath => "/active_source"
    case OtherPath(text) => text
  }

  function BadRequest(message: string): Result<Method, HttpResponse> {
    Err(HttpResponse(400, Error(message)))
  }

  /** The driver method a well-formed request asks for. */
  function Decode(request: HttpRequest): Result<Method, HttpResponse> {
    var fields := request.fields;
    if request.verb.Get? && request.path.DevicesPath? then Ok(Scan)
    else if request.verb.Post? && request.path.ActiveSourcePath? then Ok(SetActiveSource)
    else if request.verb.Post? && request.path.TransmitPath? then
      var destination := RequireInt(fields.destination, "destination", 0, 15);
      if destination.Err? then BadRequest(destination.error) else
      var opcode := RequireInt(fields.opcode, "opcode", 0, 0xFF);
      if opcode.Err? then BadRequest(opcode.error) else
      var params := RequireHex(fields.params);
      if params.None? then
        BadRequest("params must be a hex string" + if fields.params.value.JString? then ", e.g. \"3500\"" else "")
      else
      Ok(Transmit(destination.value, opcode.value, params.value))
    else if request.verb.Post? && request.path.PowerPath? then
      var destination := RequireInt(fields.destination, "destination", 0, 15);
      if destination.Err? then BadRequest(destination.error) else
      var action := if fields.action.Some? then fields.action.value else JString("on");
      if action != JString("on") && action != JString("off") then BadRequest("action must be 'on' or 'off'") else
      Ok(Power(destination.value, action == JString("on")))
    else Err(HttpResponse(404, Error("no such endpoint: " + PathText(request.path))))
  }

  /** `translate_errors`, for an exception of the driver. */
  function Translated(error: Thrown): HttpResponse {
    match error
    case DriverError(_, text) => HttpResponse(503, Error(text))
    case TimeoutError(detail) => HttpResponse(500, Error("TimeoutError: " + detail))
    case OtherError(name, detail) => HttpResponse(500, Error(name + ": " + detail))
  }

  /** An operation of `CecAdapter` in its handler, inside `translate_errors`. */
  function Handled(m: Method, outcome: CallOutcome, entries: seq<Entry>): HttpResponse {
    match outcome
    case Answered(ok) =>
      if m.Scan? then HttpResponse(200, DeviceList(entries))
      else if ok then HttpResponse(200, Plain)
      else HttpResponse(503, Error(Rejection(m)))
    case Refused(message) => HttpResponse(503, Error(message))
    case CallRaised(error) => Translated(error)
    case OpenFailed(error) => Translated(error)
  }

  function HealthOf(error: Thrown): HttpResponse {
    if error.DriverError? then HttpResponse(200, Health(false, error.text)) else Translated(error)
  }

  /** `health`, which reports what a scan comes to. */
  function HealthReport(outcome: CallOutcome): HttpResponse {
    match outcome
    case Answered(_) => HttpResponse(200, Health(true, ""))
    case Refused(message) => HttpResponse(200, Health(false, message))
    case CallRaised(error) => HealthOf(error)
    case OpenFailed(error) => HealthOf(error)
  }

  /** The daemon: the calls it makes of `CecAdapter._run`, and its response. */
  function Serve(adapter: Adapter, request: HttpRequest): (seq<Method>, HttpResponse) {
    if request.verb.Get? && request.path.HealthPath? then
      ([Scan], HealthReport(adapter.run(Scan)))
    else
      var m := Decode(request);
      if m.Err? then ([], m.error)
      else ([m.value], Handled(m.value, adapter.run(m.value), adapter.entries))
  }

  function ErrorText(body: HttpBody, fallback: string): string {
    if body.Error? && body.message != "" then body.message else fallback
  }

  /** What `DaemonBackend` makes of the response. */
  function Receive(response: HttpResponse): Reply {
    if response.status == 503 then
      Failure(BackendFailure(true, ErrorText(response.body, "the daemon's CEC adapter is unavailable")))
    else if response.status >= 400 then
      Failure(BackendFailure(false, ErrorText(response.body, "daemon returned HTTP " + IntText(response.status))))
    else if response.body.DeviceList? then Devices(response.body.entries)
    else Success
  }

  function ViaDaemon(adapter: Adapter, m: Method): Exchange
    requires !m.SendKey?
  {
    var (calls, response) := Serve(adapter, Encode(m));
    Exchange(calls, Receive(response))
  }

  // ------------------------------------------------------------- comparison

  /** What the daemon takes; every call of the integration is of this kind. */
  predicate InRange(m: Method) {
    match m
    case Transmit(d, opcode, _) => 0 <= d <= 15 && 0 <= opcode <= 0xFF
    case Power(d, _) => 0 <= d <= 15
    case _ => true
  }

  predicate Succeeds(m: Method, outcome: CallOutcome) {
    outcome.Answered? && (m.Scan? || outcome.ok)
  }

  /** Something was raised that is no DriverError. */
  predicate Unexpected(outcome: CallOutcome) {
    (outcome.CallRaised? || outcome.OpenFailed?) && !outcome.error.DriverError?
  }

  /** The same success on both sides.  Where the local backend raises a
      `BackendError`, so does the daemon's client, with the same text, and calls
      the adapter unavailable; and also where an exception escapes locally, with
      the exception's text, but unavailable only for a `DriverError`. */
  ghost predicate Agree(local: Reply, remote: Reply) {
    match local
    case Escaped(DriverError(_, text)) => remote == Failure(BackendFailure(true, text))
    case Escaped(TimeoutError(detail)) => remote == Failure(BackendFailure(false, "TimeoutError: " + detail))
    case Escaped(OtherError(name, detail)) => remote == Failure(BackendFailure(false, name + ": " + detail))
    case Failure(error) => remote == Failure(BackendFailure(true, error.message))
    case _ => remote == local
  }

  lemma WireKeepsParams(params: seq<byte>)
    ensures RequireHex(Some(JString(Hex(params)))) == Some(params)
  {
    HexIsClean(params);
    RemoveNothing(Hex(params), IsSeparator);
    HexRoundTrip(params);
  }

  /** The daemon understands every request in range as the call it was made for,
      and turns down every other one. */
  lemma DecodeEncode(m: Method)
    requires !m.SendKey?
    ensures InRange(m) ==> Decode(Encode(m)) == Ok(m)
    ensures !InRange(m) ==> Decode(Encode(m)).Err? && Decode(Encode(m)).error.status == 400
  {
    match m {
      case Transmit(d, opcode, params) => WireKeepsParams(params);
      case _ =>
    }
  }

  function SuccessOf(adapter: Adapter, m: Method): Reply {
    if m.Scan? then Devices(adapter.entries) else Success
  }

  /** In range, both transports ask the adapter for the same call with the same
      arguments, and whatever that comes to, opening included: both succeed with
      the same result or neither succeeds. */
  lemma TransportsAgree(adapter: Adapter, m: Method)
    requires !m.SendKey? && InRange(m)
    ensures ViaDaemon(adapter, m).calls == Local(adapter, m).calls == [m]
    ensures Agree(Local(adapter, m).reply, ViaDaemon(adapter, m).reply)
    ensures Succeeds(m, adapter.run(m)) <==>
              Local(adapter, m).reply == ViaDaemon(adapter, m).reply == SuccessOf(adapter, m)
  {
    DecodeEncode(m);
  }

  /** Outside of that range they differ: the daemon never bothers the driver. */
  lemma SameCallExactlyInRange(adapter: Adapter, m: Method)
    requires !m.SendKey?
    ensures ViaDaemon(adapter, m).calls == Local(adapter, m).calls <==> InRange(m)
    ensures !InRange(m) ==>
              ViaDaemon(adapter, m).calls == [] && ViaDaemon(adapter, m).reply.Failure? &&
              !ViaDaemon(adapter, m).reply.error.unavailable
  {
    DecodeEncode(m);
  }

  /** Where both raise a `BackendError`, it is of the same kind exactly if the
      guard refused or the driver raised `DriverUnavailable`: a refused send is
      not. */
  lemma FailureKindAgrees(adapter: Adapter, m: Method)
    requires !m.SendKey? && InRange(m) && Local(adapter, m).reply.Failure?
    ensures ViaDaemon(adapter, m).reply.Failure?
    ensures var outcome := adapter.run(m);
            Local(adapter, m).reply.error.unavailable == ViaDaemon(adapter, m).reply.error.unavailable <==>
              outcome.Refused? || (outcome.CallRaised? && outcome.error.DriverError? && outcome.error.unavailable)
  {
    DecodeEncode(m);
  }

  /** For instance. */
  lemma RefusedSendDiffersInKind()
    ensures var adapter, m := Adapter(_ => Answered(false), []), Transmit(0, 0x36, []);
            && Local(adapter, m).reply == Failure(BackendFailure(false, Rejection(m)))
            && ViaDaemon(adapter, m).reply == Failure(BackendFailure(true, Rejection(m)))
  {
    var adapter, m := Adapter(_ => Answered(false), []), Transmit(0, 0x36, []);
    TransportsAgree(adapter, m);
  }

  // ------------------------------------------------------------ status codes

  /** The endpoints of the contract. */
  predicate Routed(request: HttpRequest) {
    match request.path
    case HealthPath => request.verb.Get?
    case DevicesPath => request.verb.Get?
    case TransmitPath => request.verb.Post?
    case PowerPath => request.verb.Post?
    case ActiveSourcePath => request.verb.Post?
    case OtherPath(_) => false
  }

  /** The field says n, as a JSON integer or as the text of one, and n is in range;
      truth values, fractions, null and a missing field say no number. */
  ghost predicate SaysInt(field: Option<Json>, n: int, minimum: int, maximum: int) {
    && minimum <= n <= maximum
    && (field == Some(JInt(n)) ||
        exists text :: field == Some(JString(text)) && ParseInt(text, 10) == Some(n))
  }

  /** The field says these bytes; a missing one, null and the empty text say none. */
  ghost predicate SaysBytes(field: Option<Json>, bytes: seq<byte>) {
    if field in {None, Some(JNull), Some(JString(""))} then bytes == []
    else exists text :: field == Some(JString(text)) && FromHex(Remove(text, IsSeparator)) == Some(bytes)
  }

  /** The request asks for this call. */
  ghost predicate Asks(request: HttpRequest, m: Method) {
    var fields := request.fields;
    Routed(request) &&
    match m
    case Scan => request.path.DevicesPath?
    case SetActiveSource => request.path.ActiveSourcePath?
    case Transmit(destination, opcode, params) =>
      && request.path.TransmitPath?
      && SaysInt(fields.destination, destination, 0, 15)
      && SaysInt(fields.opcode, opcode, 0, 0xFF)
      && SaysBytes(fields.params, params)
    case Power(destination, turnOn) =>
      && request.path.PowerPath?
      && SaysInt(fields.destination, destination, 0, 15)
      && (fields.action == Some(JString(if turnOn then "on" else "off")) || (turnOn && fields.action.None?))
    case SendKey(_, _) => false
  }

  lemma RequireIntIsSaysInt(field: Option<Json>, key: string, minimum: int, maximum: int, n: int)
    ensures RequireInt(field, key, minimum, maximum) == Ok(n) <==> SaysInt(field, n, minimum, maximum)
    ensures RequireInt(field, key, minimum, maximum).Err? ==>
              key <= RequireInt(field, key, minimum, maximum).error
  {
  }

  lemma RequireHexIsSaysBytes(field: Option<Json>, bytes: seq<byte>)
    ensures RequireHex(field) == Some(bytes) <==> SaysBytes(field, bytes)
  {
  }

  /** The handlers read a request as the call it asks for, and as no other. */
  lemma DecodeIsAsks(request: HttpRequest, m: Method)
    ensures Decode(request) == Ok(m) <==> Asks(request, m)
  {
    var fields := request.fields;
    match m {
      case Transmit(destination, opcode, params) =>
        RequireIntIsSaysInt(fields.destination, "destination", 0, 15, destination);
        RequireIntIsSaysInt(fields.opcode, "opcode", 0, 0xFF, opcode);
        RequireHexIsSaysBytes(fields.params, params);
      case Power(destination, _) =>
        RequireIntIsSaysInt(fields.destination, "destination", 0, 15, destination);
      case _ =>
    }
  }

  ghost predicate IsHealth(request: HttpRequest) {
    Routed(request) && request.path.HealthPath?
  }

  /** 404: no such endpoint.  400: an endpoint, but the request asks for no call.
      Neither has touched the adapter.  Otherwise exactly the call that was asked
      for was made, and 200 means that it succeeded, 500 that something unexpected
      was raised, 503 all the rest. */
  lemma StatusTellsWhoseFault(adapter: Adapter, request: HttpRequest)
    ensures var (calls, response) := Serve(adapter, request);
            && (response.status == 404 <==> !Routed(request))
            && (response.status == 400 <==>
                  Routed(request) && !IsHealth(request) && forall m :: !Asks(request, m))
            && (response.status == 400 || response.status == 404 ==> calls == [])
            && (forall m :: Asks(request, m) ==>
                  && calls == [m]
                  && response.status == if Succeeds(m, adapter.run(m)) then 200
                                        else if Unexpected(adapter.run(m)) then 500 else 503)
            && (IsHealth(request) ==>
                  && calls == [Scan]
                  && response.status == if Unexpected(adapter.run(Scan)) then 500 else 200)
  {
    forall m ensures Decode(request) == Ok(m) <==> Asks(request, m) {
      DecodeIsAsks(request, m);
    }
    if Decode(request).Ok? {
      assert Asks(request, Decode(request).value);
    }
  }

  /** What /health says of the adapter: usable exactly if a scan was answered; and
      if not, the guard's message or the text of the exception. */
  lemma HealthTellsAdapter(adapter: Adapter, request: HttpRequest)
    requires IsHealth(request)
    ensures var response, outcome := Serve(adapter, request).1, adapter.run(Scan);
            if response.status == 200 then
              && response.body.Health?
              && (response.body.ok <==> outcome.Answered?)
              && response.body.detail ==
                   (match outcome
                    case Answered(_) => ""
                    case Refused(message) => message
                    case CallRaised(error) => if error.DriverError? then error.text else error.detail
                    case OpenFailed(error) => if error.DriverError? then error.text else error.detail)
            else Unexpected(outcome)
  {
  }

  /** Every response but 200 carries an error sentence, and it is not empty. */
  lemma ErrorsSaySomething(adapter: Adapter, request: HttpRequest)
    ensures var response := Serve(adapter, request).1;
            && (response.body.Error? <==> response.status != 200)
            && (response.body.Error? ==> response.body.message != "")
  {
  }

  /** A 400 names the first field that is wrong. */
  lemma BadRequestNamesFirstBadField(adapter: Adapter, request: HttpRequest)
    requires Serve(adapter, request).1.status == 400
    ensures var message, fields := Serve(adapter, request).1.body.message, request.fields;
            if forall n :: !SaysInt(fields.destination, n, 0, 15) then "destination" <= message
            else if request.path.PowerPath? then "action" <= message
            else if forall n :: !SaysInt(fields.opcode, n, 0, 0xFF) then "opcode" <= message
            else "params" <= message && forall bytes :: !SaysBytes(fields.params, bytes)
  {
    var fields := request.fields;
    forall n
      ensures RequireInt(fields.destination, "destination", 0, 15) == Ok(n) <==> SaysInt(fields.destination, n, 0, 15)
      ensures RequireInt(fields.opcode, "opcode", 0, 0xFF) == Ok(n) <==> SaysInt(fields.opcode, n, 0, 0xFF)
    {
      RequireIntIsSaysInt(fields.destination, "destination", 0, 15, n);
      RequireIntIsSaysInt(fields.opcode, "opcode", 0, 0xFF, n);
    }
    forall bytes ensures RequireHex(fields.params) == Some(bytes) <==> SaysBytes(fields.params, bytes) {
      RequireHexIsSaysBytes(fields.params, bytes);
    }
    RequireIntIsSaysInt(fields.destination, "destination", 0, 15, 0);
    RequireIntIsSaysInt(fields.opcode, "opcode", 0, 0xFF, 0);
  }

  /** `/health` is not always 200: it is exactly unless something is raised that
      is no DriverError, as here. */
  lemma HealthCanFail()
    ensures var adapter := Adapter(_ => CallRaised(OtherError("RuntimeError", "")), []);
            Serve(adapter, HttpRequest(Get, HealthPath, NO_FIELDS)).1.status == 500
  {
  }

  // ------------------------------------------------------------ device lists

  datatype CecDevice = CecDevice(
    address: int, osdString: string, vendor: string, physicalAddress: string, cecVersion: string, isOn: Option<bool>)

  /** `CecDevice.from_dict` on an entry of a scan. */
  function FromEntry(e: Entry): CecDevice {
    CecDevice(e.address, e.osdString, e.vendor, e.physicalAddress, e.cecVersion, Some(e.isOn))
  }

  /** The address-keyed devices of a `BackendStatus`; a later entry replaces an
      earlier one with the same address. */
  function DeviceMap(entries: seq<Entry>): map<int, CecDevice> {
    if entries == [] then map[] else
    var last := entries[|entries| - 1];
    DeviceMap(entries[..|entries| - 1])[last.address := FromEntry(last)]
  }

  /** The first device of a scan with this address. */
  function Search(entries: seq<Entry>, address: int): Option<CecDevice> {
    if entries == [] then None
    else if entries[0].address == address then Some(FromEntry(entries[0]))
    else Search(entries[1..], address)
  }

  ghost predicate Increasing(entries: seq<Entry>) {
    forall i, j :: 0 <= i < j < |entries| ==> entries[i].address < entries[j].address
  }

  lemma {:induction false} SearchLast(entries: seq<Entry>, address: int)
    requires entries != []
    ensures var n := |entries| - 1;
            var front := Search(entries[..n], address);
            Search(entries, address) ==
              if front.Some? then front
              else if entries[n].address == address then Some(FromEntry(entries[n])) else None
  {
    var n := |entries| - 1;
    if n > 0 && entries[0].address != address {
      SearchLast(entries[1..], address);
      assert entries[1..][..n - 1] == entries[..n][1..];
    }
  }

  lemma {:induction false} SearchFinds(entries: seq<Entry>, address: int)
    ensures Search(entries, address).Some? <==> exists i :: 0 <= i < |entries| && entries[i].address == address
  {
    if entries != [] {
      SearchFinds(entries[1..], address);
      if Search(entries[1..], address).Some? {
        var i :| 0 <= i < |entries[1..]| && entries[1..][i].address == address;
        assert entries[i + 1].address == address;
      }
      if i :| 0 <= i < |entries| && entries[i].address == address {
        if i > 0 { assert entries[1..][i - 1].address == address; }
      }
    }
  }

  lemma {:induction false} SearchIs(entries: seq<Entry>, i: nat)
    requires Increasing(entries) && i < |entries|
    ensures Search(entries, entries[i].address) == Some(FromEntry(entries[i]))
  {
    if i > 0 {
      SearchIs(entries[1..], i - 1);
    }
  }

  /** A scan in address order becomes a status with one device per entry, and
      looking one up is the same as searching the scan for it. */
  lemma {:induction false} StatusHasEveryDevice(entries: seq<Entry>, address: int)
    requires Increasing(entries)
    ensures |DeviceMap(entries)| == |entries|
    ensures Search(entries, address) ==
              if address in DeviceMap(entries) then Some(DeviceMap(entries)[address]) else None
  {
    if entries != [] {
      var n := |entries| - 1;
      var front, last := entries[..n], entries[n];
      StatusHasEveryDevice(front, address);
      StatusHasEveryDevice(front, last.address);
      SearchLast(entries, address);
      SearchFinds(front, last.address);
      SearchFinds(front, address);
      assert last.address !in DeviceMap(front);
      assert DeviceMap(entries).Keys == DeviceMap(front).Keys + {last.address};
    }
  }
  /** Which field of an entry becomes which field of the device. */
  lemma StatusFieldByField(entries: seq<Entry>, i: nat)
    requires Increasing(entries) && i < |entries|
    ensures entries[i].address in DeviceMap(entries)
    ensures var e, d := entries[i], DeviceMap(entries)[entries[i].address];
            && d.address == e.address && d.osdString == e.osdString && d.vendor == e.vendor
            && d.physicalAddress == e.physicalAddress && d.cecVersion == e.cecVersion && d.isOn == Some(e.isOn)
  {
    StatusHasEveryDevice(entries, entries[i].address);
    SearchIs(entries, i);
  }
}
