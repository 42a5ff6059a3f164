/**
 What a request is charged: the startup check on quotas, the gates a request passes before it is
 forwarded, the output cap and the reservation put on it, and the settlement and log record made
 of its outcome. JSON syntax, the ACL and the affinity table enter as functions.
 */
module Charging {
  import opened Options
  import opened Int64
  import opened TokenQuota
  import D = Dispatch

  // ----- configuration -----

  datatype ModelType = Generation | Embedding
  datatype Model = Model(typ: ModelType, maxOutputTokens: int)
  datatype Key = Key(id: string, limits: Limits)

  /** ensureStreamUsageSet says the optional setting is present at all. */
  datatype Config = Config(accounting: bool, ensureStreamUsageSet: bool, unknownReservation: int, models: map<string, Model>)
  {
    /** What configuration validation has established. */
    predicate Validated() {
      && 0 <= unknownReservation <= MAX_INT64
      && forall m :: m in models ==> 0 <= models[m].maxOutputTokens <= MAX_INT64
    }
  }

  predicate HasQuota(keys: seq<Key>) {
    exists i :: 0 <= i < |keys| && (keys[i].limits.tokensPerHour > 0 || keys[i].limits.tokensPerDay > 0)
  }

  predicate Uncounted(m: Model) {
    m.typ == Embedding || m.maxOutputTokens == 0
  }

  datatype Check = Accepted | NoEffect | NeedsFallback(models: set<string>)

  function CheckQuota(cfg: Config, keys: seq<Key>): Check {
    if !cfg.accounting && !HasQuota(keys) && (cfg.ensureStreamUsageSet || cfg.unknownReservation != 0) then NoEffect
    else if !HasQuota(keys) || cfg.unknownReservation != 0 then Accepted
    else
      var uncounted := set m | m in cfg.models && Uncounted(cfg.models[m]);
      if uncounted == {} then Accepted else NeedsFallback(uncounted)
  }

  method QuotaKeysConfigured(keys: seq<Key>) returns (r: bool)
    ensures r == HasQuota(keys)
  {
    for i := 0 to |keys|
      invariant forall j :: 0 <= j < i ==> keys[j].limits.tokensPerHour <= 0 && keys[j].limits.tokensPerDay <= 0
    {
      if keys[i].limits.tokensPerHour > 0 || keys[i].limits.tokensPerDay > 0 {
        return true;
      }
    }
    return false;
  }

  /** checkQuotaEnforceable, for the order in which the runtime ranges over the models. */
  method CheckQuotaEnforceable(cfg: Config, keys: seq<Key>, order: seq<string>) returns (r: Check)
    requires forall m :: m in cfg.models <==> m in order
    ensures r == CheckQuota(cfg, keys)
  {
    var hasQuota := QuotaKeysConfigured(keys);
    if !cfg.accounting && !hasQuota && (cfg.ensureStreamUsageSet || cfg.unknownReservation != 0) {
      return NoEffect;
    }
    if !hasQuota || cfg.unknownReservation != 0 {
      return Accepted;
    }
    var uncounted: set<string> := {};
    for i := 0 to |order|
      invariant forall m :: m in uncounted <==> m in order[..i] && m in cfg.models && Uncounted(cfg.models[m])
    {
      assert order[i] in order && order[..i + 1] == order[..i] + [order[i]];
      var m := cfg.models[order[i]];
      if m.typ == Embedding || m.maxOutputTokens == 0 {
        uncounted := uncounted + {order[i]};
      }
    }
    assert order[..|order|] == order;
    assert uncounted == set m | m in cfg.models && Uncounted(cfg.models[m]);
    if uncounted == {} {
      return Accepted;
    }
    return NeedsFallback(uncounted);
  }

  // ----- operations and gates -----

  /** byModel is false for the routes that name a response ID; "" stands for no cap field. */
  datatype Operation = Operation(byModel: bool, capture: bool, endpoint: string, capField: string, altCapField: string)
  {
    predicate Generative() {
      capField != ""
    }
  }

  const OP_CHAT := Operation(true, false, "chat.completions", "max_completion_tokens", "max_tokens")
  const OP_LEGACY := Operation(true, false, "completions", "max_tokens", "")
  const OP_EMBED := Operation(true, false, "embeddings", "", "")
  const OP_RESP := Operation(true, true, "responses", "max_output_tokens", "")
  const OP_RESP_BY_ID := Operation(false, false, "responses", "", "")

  predicate IsOperation(o: Operation) {
    o == OP_CHAT || o == OP_LEGACY || o == OP_EMBED || o == OP_RESP || o == OP_RESP_BY_ID
  }

  /** The undecoded text of one JSON value. */
  type Raw = string

  type Fields = map<string, Raw>

  /** A decoded body: shallowParse's result. */
  datatype Parse = BadJson | NoModel | ModelNotString | Parsed(fields: Fields, model: string, stream: bool)

  datatype Pin = Pin(backend: string, model: string)

  datatype Denial =
    | ErrBadJson | ErrNoModel | ErrModelType | ErrNoStream | ErrModelDenied | ErrNotGenerate | ErrNotEmbed
    | ErrPrevNotFound | ErrRespNotFound | ErrRespBadId

  datatype Target =
    | Denied(error: Denial)
    | Target(model: string, stream: bool, backend: string, fields: Option<Fields>)

  /** JSON values as the pipeline reads and writes them. */
  datatype Json = Json(
    asInt: Raw -> Option<int>,            // a JSON integer that fits int64
    ofInt: int -> Raw,
    wantsUsage: Raw -> bool,              // stream options with include_usage true
    withUsage: Option<Raw> -> Raw)        // stream options with include_usage set
  {
    ghost predicate Faithful() {
      && (forall n :: IsInt64(n) ==> asInt(ofInt(n)) == Some(n))
      && (forall so :: wantsUsage(withUsage(so)))
    }

    /** The client already asks for the usage chunk. */
    predicate AsksForUsage(fields: Fields) {
      "stream_options" in fields && wantsUsage(fields["stream_options"])
    }
  }

  /** One request of a key. prev and pinned are the affinity lookups for the body's and the path's response ID. */
  datatype Request = Request(
    o: Operation, keyId: string, limits: Limits, ensureUsage: bool,
    parse: Parse, allows: string -> bool, prev: Option<Option<Pin>>, pinned: Option<Pin>, validId: bool)

  function DenialStatus(d: Denial): D.ErrorStatus {
    match d
    case ErrModelDenied => 404
    case ErrPrevNotFound => 404
    case ErrRespNotFound => 404
    case ErrRespBadId => 404
    case _ => 400
  }

  /** resolveTarget. prev and pinned are the affinity lookups for the body's and the path's response ID. */
  function ResolveTarget(cfg: Config, o: Operation, parse: Parse, allows: string -> bool,
                              prev: Option<Option<Pin>>, pinned: Option<Pin>, validId: bool): Target
  {
    if o.byModel then
      match parse
      case BadJson => Denied(ErrBadJson)
      case NoModel => Denied(ErrNoModel)
      case ModelNotString => Denied(ErrModelType)
      case Parsed(fields, model, stream) =>
        if stream && !o.Generative() then Denied(ErrNoStream)
        else if !allows(model) || model !in cfg.models then Denied(ErrModelDenied)
        else if cfg.models[model].typ == Embedding && o.Generative() then Denied(ErrNotGenerate)
        else if cfg.models[model].typ == Generation && o.endpoint == "embeddings" then Denied(ErrNotEmbed)
        else if o.capture && prev.Some? then
          if prev.value.None? || prev.value.value.model != model then Denied(ErrPrevNotFound)
          else Target(model, stream, prev.value.value.backend, Some(fields))
        else Target(model, stream, "", Some(fields))
    else if pinned.None? || !allows(pinned.value.model) then Denied(ErrRespNotFound)
    else if !validId then Denied(ErrRespBadId)
    else Target("", false, pinned.value.backend, None)
  }

  // ----- the output cap and the reservation -----

  datatype Limit = Absent | Present(v: int) | CapInvalid | CapExceeded

  function TokenLimit(js: Json, fields: Fields, name: string, cap: int): (r: Limit)
    ensures r.Present? ==> name in fields && js.asInt(fields[name]) == Some(r.v) && 0 <= r.v <= cap
    ensures r.Absent? <==> name !in fields
  {
    if name !in fields then Absent
    else match js.asInt(fields[name])
      case None => CapInvalid
      case Some(n) => if n < 0 then CapInvalid else if n > cap then CapExceeded else Present(n)
  }

  /** The charge for a request whose usage will stay unknown. */
  function Reservation(o: Operation, cap: int, stream: bool, ensureUsage: bool, configured: int): int {
    if o.capField == "" && !(stream && ensureUsage) then configured
    else if configured > 0 then configured else cap
  }

  datatype Prepared = Rejected(invalid: bool) | Ready(reservation: int, injected: bool)

  /** The decoded body, which preparation changes in place. */
  class Body {
    var fields: Fields

    constructor (fields: Fields)
      ensures this.fields == fields
    {
      this.fields := fields;
    }

    method InjectStreamUsage(js: Json) returns (injected: bool)
      modifies this
      ensures forall name :: name != "stream_options" ==> (name in fields <==> name in old(fields)) && (name in fields ==> fields[name] == old(fields)[name])
      ensures injected <==> !js.AsksForUsage(old(fields))
      ensures !injected ==> fields == old(fields)
      ensures injected ==> "stream_options" in fields
      ensures injected ==> fields["stream_options"] == js.withUsage(if "stream_options" in old(fields) then Some(old(fields)["stream_options"]) else None)
    {
      if js.AsksForUsage(fields) {
        return false;
      }
      var so := if "stream_options" in fields then Some(fields["stream_options"]) else None;
      fields := fields["stream_options" := js.withUsage(so)];
      return true;
    }

    /** The cap fields: validated if present, and the cap itself written if neither is. */
    method ApplyCap(js: Json, o: Operation, cap: int) returns (failure: Limit)
      requires o.capField != "" && cap > 0
      modifies this
      ensures failure.CapInvalid? || failure.CapExceeded? || failure.Absent?
      ensures failure == CapFailure(js, old(fields), o, cap)
      ensures fields == if failure.Absent? then Capped(js, old(fields), o, cap) else old(fields)
    {
      var limitSet := false;
      var first := TokenLimit(js, fields, o.capField, cap);
      if first.CapInvalid? || first.CapExceeded? {
        return first;
      }
      if first.Present? {
        limitSet := true;
      }
      if o.altCapField != "" {
        var alt := TokenLimit(js, fields, o.altCapField, cap);
        if alt.CapInvalid? || alt.CapExceeded? {
          return alt;
        }
        if alt.Present? {
          limitSet := true;
        }
      }
      if !limitSet {
        fields := fields[o.capField := js.ofInt(cap)];
      }
      return Absent;
    }

    /** prepareOutbound. */
    method PrepareOutbound(js: Json, o: Operation, cap: int, stream: bool, ensureUsage: bool, configured: int)
      returns (r: Prepared)
      requires IsOperation(o)
      modifies this
      // refusals
      ensures r.Rejected? <==> o.capField != "" && cap > 0 && !CapFailure(js, old(fields), o, cap).Absent?
      ensures r.Rejected? ==> fields == old(fields) && (r.invalid <==> CapFailure(js, old(fields), o, cap).CapInvalid?)
      // the reservation
      ensures r.Ready? ==> r.reservation == Reservation(o, cap, stream, ensureUsage, configured)
      // the cap fields, and every other field but stream_options
      ensures r.Ready? && o.capField != "" && cap > 0 ==>
          forall name :: name != "stream_options" ==> SameAt(fields, Capped(js, old(fields), o, cap), name)
      ensures r.Ready? && !(o.capField != "" && cap > 0) ==>
          forall name :: name != "stream_options" ==> SameAt(fields, old(fields), name)
      // stream_options
      ensures r.Ready? ==> (r.injected <==> InjectsUsage(o, stream, ensureUsage) && !js.AsksForUsage(old(fields)))
      ensures r.Ready? && !r.injected ==> SameAt(fields, old(fields), "stream_options")
      ensures r.Ready? && js.Faithful() && InjectsUsage(o, stream, ensureUsage) ==> js.AsksForUsage(fields)
    {
      if o.capField == "" && !(stream && ensureUsage) {
        return Ready(configured, false);
      }
      if o.capField != "" && cap > 0 {
        var failure := ApplyCap(js, o, cap);
        if !failure.Absent? {
          return Rejected(failure.CapInvalid?);
        }
      }
      var reservation := cap;
      if configured > 0 {
        reservation := configured;
      }
      var injected := false;
      if stream && ensureUsage {
        if o.endpoint == "chat.completions" || o.endpoint == "completions" {
          injected := InjectStreamUsage(js);
        }
      }
      return Ready(reservation, injected);
    }
  }

  /** Streams of these operations report usage only when asked. */
  predicate InjectsUsage(o: Operation, stream: bool, ensureUsage: bool) {
    stream && ensureUsage && (o.endpoint == "chat.completions" || o.endpoint == "completions")
  }

  predicate SameAt(a: Fields, b: Fields, name: string) {
    (name in a <==> name in b) && (name in a ==> a[name] == b[name])
  }

  /** The first complaint about a cap field, or Absent. */
  function CapFailure(js: Json, fields: Fields, o: Operation, cap: int): (r: Limit)
    ensures r.CapInvalid? || r.CapExceeded? || r.Absent?
  {
    var first := TokenLimit(js, fields, o.capField, cap);
    if first.CapInvalid? || first.CapExceeded? then first
    else if o.altCapField == "" then Absent
    else
      var alt := TokenLimit(js, fields, o.altCapField, cap);
      if alt.CapInvalid? || alt.CapExceeded? then alt else Absent
  }

  /** The field, if it is there, holds an integer from 0 to the cap. */
  predicate LimitOk(js: Json, fields: Fields, name: string, cap: int) {
    name in fields ==> js.asInt(fields[name]).Some? && 0 <= js.asInt(fields[name]).value <= cap
  }

  /** A body is let through exactly when each of its limit fields is absent or within the cap; else the first bad one is named. */
  lemma CapAcceptsIff(js: Json, fields: Fields, o: Operation, cap: int)
    ensures CapFailure(js, fields, o, cap).Absent? <==>
              LimitOk(js, fields, o.capField, cap) && (o.altCapField != "" ==> LimitOk(js, fields, o.altCapField, cap))
    ensures CapFailure(js, fields, o, cap).CapExceeded? <==>
              var bad := if LimitOk(js, fields, o.capField, cap) then o.altCapField else o.capField;
              && (bad == o.capField || o.altCapField != "") && !LimitOk(js, fields, bad, cap)
              && js.asInt(fields[bad]).Some? && js.asInt(fields[bad]).value > cap && js.asInt(fields[bad]).value >= 0
  {
  }

  function Capped(js: Json, fields: Fields, o: Operation, cap: int): Fields {
    if o.capField in fields || (o.altCapField != "" && o.altCapField in fields) then fields
    else fields[o.capField := js.ofInt(cap)]
  }

  /** A body that names its output limit within the cap, under at least one of the operation's fields. */
  predicate WithinCap(js: Json, fields: Fields, o: Operation, cap: int) {
    && (o.capField in fields || (o.altCapField != "" && o.altCapField in fields))
    && (o.capField in fields ==> TokenLimit(js, fields, o.capField, cap).Present?)
    && (o.altCapField != "" && o.altCapField in fields ==> TokenLimit(js, fields, o.altCapField, cap).Present?)
  }

  /** Every forwarded generative body is within the cap, and a client's own limit is never changed. */
  lemma CappedIsWithinCap(js: Json, fields: Fields, o: Operation, cap: int)
    requires js.Faithful() && 0 < cap <= MAX_INT64 && o.capField != o.altCapField
    requires CapFailure(js, fields, o, cap).Absent?
    ensures WithinCap(js, Capped(js, fields, o, cap), o, cap)
    ensures forall name :: name in fields ==> SameAt(Capped(js, fields, o, cap), fields, name)
    ensures o.capField !in fields && (o.altCapField == "" || o.altCapField !in fields) ==>
              && o.capField in Capped(js, fields, o, cap) && js.asInt(Capped(js, fields, o, cap)[o.capField]) == Some(cap)
              && forall name :: name != o.capField ==> SameAt(Capped(js, fields, o, cap), fields, name)
    ensures o.capField in fields || (o.altCapField != "" && o.altCapField in fields) ==> Capped(js, fields, o, cap) == fields
  {
    assert js.asInt(js.ofInt(cap)) == Some(cap);
  }

  // ----- the check is exact -----

  function CapOf(cfg: Config, model: string): int {
    if model in cfg.models then cfg.models[model].maxOutputTokens else 0
  }

  /** The requests that pass the gates to some model, whatever the key and the body. */
  predicate Servable(cfg: Config, o: Operation, model: string, stream: bool) {
    && IsOperation(o) && o.byModel && model in cfg.models
    && (stream ==> o.Generative())
    && (cfg.models[model].typ == Embedding ==> !o.Generative())
    && (cfg.models[model].typ == Generation ==> o.endpoint != "embeddings")
  }

  function ReservationFor(cfg: Config, o: Operation, model: string, stream: bool, ensureUsage: bool): int {
    Reservation(o, CapOf(cfg, model), stream, ensureUsage, cfg.unknownReservation)
  }

  /** The affinity lookup, when a continuation names an earlier response, found it under this very model. */
  predicate ContinuationOk(o: Operation, model: string, prev: Option<Option<Pin>>) {
    o.capture && prev.Some? ==> prev.value.Some? && prev.value.value.model == model
  }

  /** resolveTarget on a request. */
  function Resolved(cfg: Config, q: Request): Target {
    ResolveTarget(cfg, q.o, q.parse, q.allows, q.prev, q.pinned, q.validId)
  }

  /** The backend a request is bound to, or "" when the router chooses. */
  function Bound(q: Request): string {
    if !q.o.byModel then (if q.pinned.Some? then q.pinned.value.backend else "")
    else if q.o.capture && q.prev.Some? && q.prev.value.Some? then q.prev.value.value.backend
    else ""
  }

  /** The gates let the request through: by model, or by the ID of a response this key owns. */
  predicate Admissible(cfg: Config, q: Request) {
    if q.o.byModel then
      q.parse.Parsed? && q.allows(q.parse.model) && Servable(cfg, q.o, q.parse.model, q.parse.stream)
      && ContinuationOk(q.o, q.parse.model, q.prev)
    else q.pinned.Some? && q.allows(q.pinned.value.model) && q.validId
  }

  /**
   A request passes the gates if and only if: by model, it is servable there, allowed, and continues
   in the same model; by response ID, this key owns the response under a model it may still use.
   */
  lemma PassesExactly(cfg: Config, q: Request)
    requires IsOperation(q.o)
    ensures var t := Resolved(cfg, q);
            && (t.Target? <==> Admissible(cfg, q))
            && (t.Target? ==> t.backend == Bound(q))
            && (t.Target? && q.o.byModel ==> t.model == q.parse.model && t.stream == q.parse.stream && t.fields == Some(q.parse.fields))
            && (t.Target? && !q.o.byModel ==> !t.stream && t.fields == None)
  {
  }

  /** Every servable request is reserved a positive amount. */
  ghost predicate EveryReservationCounts(cfg: Config) {
    forall o, model, stream, ensureUsage :: Servable(cfg, o, model, stream) ==> ReservationFor(cfg, o, model, stream, ensureUsage) > 0
  }

  /** With a quota on some key, the check accepts exactly the configurations under which no request is free. */
  lemma CheckIsExact(cfg: Config, keys: seq<Key>)
    requires cfg.Validated() && HasQuota(keys)
    ensures CheckQuota(cfg, keys) == Accepted <==> EveryReservationCounts(cfg)
  {
    var uncounted := set m | m in cfg.models && Uncounted(cfg.models[m]);
    if cfg.unknownReservation == 0 && uncounted != {} {
      var m :| m in uncounted;
      var o := if cfg.models[m].typ == Embedding then OP_EMBED else OP_CHAT;
      assert Servable(cfg, o, m, false) && ReservationFor(cfg, o, m, false, false) == 0;
    } else if cfg.unknownReservation == 0 {
      forall o, model, stream, ensureUsage | Servable(cfg, o, model, stream)
        ensures ReservationFor(cfg, o, model, stream, ensureUsage) > 0
      {
        assert model !in uncounted;
      }
    }
  }

  /** Without a quota only a setting that has no effect is refused; with one, the refusal names the models that reserve nothing. */
  lemma CheckNamesTheCause(cfg: Config, keys: seq<Key>)
    requires cfg.Validated()
    ensures CheckQuota(cfg, keys) == NoEffect <==>
              !HasQuota(keys) && !cfg.accounting && (cfg.ensureStreamUsageSet || cfg.unknownReservation > 0)
    ensures CheckQuota(cfg, keys).NeedsFallback? ==> HasQuota(keys) && forall m ::
              m in CheckQuota(cfg, keys).models <==>
              exists o, stream, ensureUsage :: Servable(cfg, o, m, stream) && ReservationFor(cfg, o, m, stream, ensureUsage) == 0
  {
    if CheckQuota(cfg, keys).NeedsFallback? {
      forall m ensures m in CheckQuota(cfg, keys).models <==>
        exists o, stream, ensureUsage :: Servable(cfg, o, m, stream) && ReservationFor(cfg, o, m, stream, ensureUsage) == 0
      {
        if m in CheckQuota(cfg, keys).models {
          var o := if cfg.models[m].typ == Embedding then OP_EMBED else OP_CHAT;
          assert Servable(cfg, o, m, false) && ReservationFor(cfg, o, m, false, false) == 0;
        }
      }
    }
  }

  // ----- usage and settlement -----

  const MAX_USAGE_TOKENS: int := 0x100_0000_0000

  function ClampUsage(v: int): (r: int)
    ensures 0 <= r <= MAX_USAGE_TOKENS
  {
    if v < 0 then 0 else if v > MAX_USAGE_TOKENS then MAX_USAGE_TOKENS else v
  }

  /** The three counts of a usage object that parsed, in either of its shapes. */
  datatype Report = Report(input: int, output: int, total: int)
  datatype Usage = Usage(input: int, output: int, total: int, present: bool)

  const NO_USAGE := Usage(0, 0, 0, false)

  function FromReport(r: Report): Usage {
    if r.input == 0 && r.output == 0 && r.total == 0 then NO_USAGE
    else
      var input, output, total := ClampUsage(r.input), ClampUsage(r.output), ClampUsage(r.total);
      Usage(input, output, if total == 0 then SatAdd(input, output) else total, true)
  }

  /** The fields of result that account reads. */
  datatype Outcome = Outcome(status: int, usage: Usage, exact: bool, reservation: int)

  /** How dispatch ended, and the usage object of the backend's answer, if it had one. */
  datatype Answer = Answer(event: D.Event, report: Option<Report>)

  function Unanswered(status: int): Outcome {
    Outcome(status, NO_USAGE, false, 0)
  }

  function WithUsage(status: int, report: Option<Report>, reservation: int): Outcome {
    var usage := if report.Some? then FromReport(report.value) else NO_USAGE;
    Outcome(status, usage, usage.present, reservation)
  }

  /** What dispatch leaves for account once a request is past its gates. */
  function OutcomeFor(o: Operation, a: Answer, reservation: int): Outcome {
    if a.event.Streamed? || (a.event.Relayed? && o.byModel) then WithUsage(D.StatusOf(a.event), a.report, reservation)
    else Unanswered(D.StatusOf(a.event))
  }

  predicate IsSuccess(status: int) {
    200 <= status < 300
  }

  function Charge(out: Outcome): int {
    if out.exact then out.usage.total
    else if IsSuccess(out.status) then out.reservation else 0
  }

  /** account: settlement, and the record when accounting is enabled. The clock is read twice. */
  method Account(quota: Quota, accounting: bool, keyId: string, out: Outcome, settledAt: nat, recordedAt: nat)
    returns (record: Option<Record>)
    modifies quota
    ensures quota.states == Settled(old(quota.states), keyId, Charge(out), settledAt)
    ensures record == if accounting then Some(Record(recordedAt, keyId, Charge(out), out.usage.total)) else None
  {
    var total := out.usage.total;
    if !out.exact {
      if out.status >= 200 && out.status < 300 {
        total := out.reservation;
      } else {
        total := 0;
      }
    }
    if total > 0 {
      quota.Settle(keyId, total, settledAt);
    }
    record := if accounting then Some(Record(recordedAt, keyId, total, out.usage.total)) else None;
  }

  // ----- one request from end to end -----

  predicate CapRefuses(cfg: Config, js: Json, q: Request, fields: Fields, model: string) {
    q.o.Generative() && CapOf(cfg, model) > 0 && !CapFailure(js, fields, q.o, CapOf(cfg, model)).Absent?
  }

  predicate QuotaRefuses(q: Request, k: KeyQuota, reservation: int) {
    Over(q.limits.tokensPerHour, k.hour.count, reservation) || Over(q.limits.tokensPerDay, k.day.count, reservation)
  }

  /** The outcome of a request against the quota state it is admitted in. */
  function Served(cfg: Config, js: Json, q: Request, s: States, admitAt: nat, a: Answer): Outcome {
    match Resolved(cfg, q)
    case Denied(d) => Unanswered(DenialStatus(d))
    case Target(model, stream, backend, fields) =>
      if !q.o.byModel || fields.None? then OutcomeFor(q.o, a, 0)
      else if CapRefuses(cfg, js, q, fields.value, model) then Unanswered(400)
      else
        var reservation := ReservationFor(cfg, q.o, model, stream, q.ensureUsage);
        if QuotaRefuses(q, Current(s, q.keyId, admitAt), reservation) then Unanswered(429) else OutcomeFor(q.o, a, reservation)
  }

  /** dispatch from resolveTarget to account, with the forwarding itself given by its answer. */
  method Serve(cfg: Config, js: Json, q: Request, quota: Quota, a: Answer, admitAt: nat, settledAt: nat, recordedAt: nat)
    returns (out: Outcome, sent: Option<Fields>, record: Option<Record>)
    requires IsOperation(q.o)
    modifies quota
    ensures out == Served(cfg, js, q, old(quota.states), admitAt, a)
    ensures exists s :: quota.states == Settled(s, q.keyId, Charge(out), settledAt)
                        && (s == old(quota.states) || s == old(quota.states)[q.keyId := Current(old(quota.states), q.keyId, admitAt)])
    ensures record == if cfg.accounting then Some(Record(recordedAt, q.keyId, Charge(out), out.usage.total)) else None
    ensures sent.Some? ==> Resolved(cfg, q).Target? && q.parse.Parsed? && Forwardable(cfg, js, q, sent.value)
    ensures sent.Some? <==> q.o.byModel && Admissible(cfg, q) && !CapRefuses(cfg, js, q, q.parse.fields, q.parse.model)
                            && !QuotaRefuses(q, Current(old(quota.states), q.keyId, admitAt), ReservationFor(cfg, q.o, q.parse.model, q.parse.stream, q.ensureUsage))
  {
    var t := Resolved(cfg, q);
    PassesExactly(cfg, q);
    ghost var s := quota.states;
    sent := None;
    if t.Denied? {
      out := Unanswered(DenialStatus(t.error));
    } else if !q.o.byModel {
      out := OutcomeFor(q.o, a, 0);
    } else {
      var reservation;
      var refusal;
      refusal, reservation, sent := Prepare(cfg, js, q, quota, admitAt);
      s := quota.states;
      out := if refusal.Some? then Unanswered(refusal.value) else OutcomeFor(q.o, a, reservation);
    }
    record := Account(quota, cfg.accounting, q.keyId, out, settledAt, recordedAt);
    assert quota.states == Settled(s, q.keyId, Charge(out), settledAt);
  }

  /** prepare: the cap, the stream options and the quota, for a request that passed its gates by model. */
  method Prepare(cfg: Config, js: Json, q: Request, quota: Quota, admitAt: nat)
    returns (refusal: Option<D.ErrorStatus>, reservation: int, sent: Option<Fields>)
    requires IsOperation(q.o) && q.o.byModel && q.parse.Parsed?
    modifies quota
    ensures quota.states == old(quota.states)
         || quota.states == old(quota.states)[q.keyId := Current(old(quota.states), q.keyId, admitAt)]
    ensures var r := ReservationFor(cfg, q.o, q.parse.model, q.parse.stream, q.ensureUsage);
            if CapRefuses(cfg, js, q, q.parse.fields, q.parse.model) then refusal == Some(400) && sent.None?
            else if QuotaRefuses(q, Current(old(quota.states), q.keyId, admitAt), r) then refusal == Some(429) && sent.None?
            else refusal.None? && reservation == r && sent.Some? && Forwardable(cfg, js, q, sent.value)
  {
    refusal, sent := None, None;
    var body := new Body(q.parse.fields);
    var p := body.PrepareOutbound(js, q.o, CapOf(cfg, q.parse.model), q.parse.stream, q.ensureUsage, cfg.unknownReservation);
    if p.Rejected? {
      return Some(400), 0, None;
    }
    reservation := p.reservation;
    var ok, reason := quota.Admit(q.keyId, q.limits, reservation, admitAt);
    if !ok {
      return Some(429), reservation, None;
    }
    sent := Some(body.fields);
    ForwardedIsCapped(cfg, js, q, body.fields);
  }

  /**
   What reaches a backend: limits within the cap where there is one, a usage report asked for where
   one must be, and otherwise the client's own fields.
   */
  ghost predicate Forwardable(cfg: Config, js: Json, q: Request, fields: Fields)
    requires q.parse.Parsed?
  {
    var cap := CapOf(cfg, q.parse.model);
    && (forall name :: name != "stream_options" && name != q.o.capField ==> SameAt(fields, q.parse.fields, name))
    && (q.o.capField in q.parse.fields ==> SameAt(fields, q.parse.fields, q.o.capField))
    && (!MustAskForUsage(q) ==> SameAt(fields, q.parse.fields, "stream_options"))
    && (js.Faithful() && q.o.Generative() && 0 < cap <= MAX_INT64 ==> WithinCap(js, fields, q.o, cap))
    && (js.Faithful() && MustAskForUsage(q) ==> js.AsksForUsage(fields))
  }

  /** The chat and completion streams of a key with the setting. */
  predicate MustAskForUsage(q: Request)
    requires q.parse.Parsed?
  {
    q.parse.stream && q.ensureUsage && (q.o == OP_CHAT || q.o == OP_LEGACY)
  }

  lemma OnlyTheCapIsWritten(js: Json, fields: Fields, fields': Fields, o: Operation, cap: int)
    requires o.capField != "stream_options"
    requires forall name :: name != "stream_options" ==> SameAt(fields', Capped(js, fields, o, cap), name)
    ensures forall name :: name != "stream_options" && name != o.capField ==> SameAt(fields', fields, name)
    ensures o.capField in fields ==> SameAt(fields', fields, o.capField)
  {
    forall name | name != "stream_options" && name != o.capField ensures SameAt(fields', fields, name) {
      assert SameAt(fields', Capped(js, fields, o, cap), name);
    }
    assert SameAt(fields', Capped(js, fields, o, cap), o.capField);
  }

  lemma ForwardedIsCapped(cfg: Config, js: Json, q: Request, fields: Fields)
    requires IsOperation(q.o) && q.o.byModel && q.parse.Parsed? && !CapRefuses(cfg, js, q, q.parse.fields, q.parse.model)
    requires q.o.Generative() && CapOf(cfg, q.parse.model) > 0 ==>
      forall name :: name != "stream_options" ==> SameAt(fields, Capped(js, q.parse.fields, q.o, CapOf(cfg, q.parse.model)), name)
    requires !(q.o.Generative() && CapOf(cfg, q.parse.model) > 0) ==>
      forall name :: name != "stream_options" ==> SameAt(fields, q.parse.fields, name)
    requires !InjectsUsage(q.o, q.parse.stream, q.ensureUsage) ==> SameAt(fields, q.parse.fields, "stream_options")
    requires js.Faithful() && InjectsUsage(q.o, q.parse.stream, q.ensureUsage) ==> js.AsksForUsage(fields)
    ensures Forwardable(cfg, js, q, fields)
  {
    var cap := CapOf(cfg, q.parse.model);
    if q.o.Generative() && cap > 0 {
      OnlyTheCapIsWritten(js, q.parse.fields, fields, q.o, cap);
    }
    if js.Faithful() && q.o.Generative() && 0 < cap <= MAX_INT64 {
      var capped := Capped(js, q.parse.fields, q.o, cap);
      CappedIsWithinCap(js, q.parse.fields, q.o, cap);
      assert SameAt(fields, capped, q.o.capField) && SameAt(fields, capped, q.o.altCapField);
    }
  }

  /** A count between 0 and 2^40. */
  function Count(v: int): int {
    if v <= 0 then 0 else Min(v, 1_099_511_627_776)
  }

  /** The tokens a report stands for: its total when it states one, else the sum of its parts. */
  function ReportedAmount(r: Report): int {
    if r.total > 0 then Count(r.total) else Count(r.input) + Count(r.output)
  }

  lemma UsageIsTheReport(r: Report)
    ensures FromReport(r).present <==> r != Report(0, 0, 0)
    ensures FromReport(r).total == ReportedAmount(r) <= MAX_INT64
    ensures FromReport(r).total > 0 <==> HasPositive(r)
  {
    SatAddClamps(ClampUsage(r.input), ClampUsage(r.output));
  }

  /** The answer's usage object counts: it is read on this route and not all zero. */
  predicate Reports(q: Request, a: Answer) {
    && (a.event.Streamed? || (a.event.Relayed? && q.o.byModel))
    && a.report.Some? && a.report.value != Report(0, 0, 0)
  }

  /** Preparation lets it through: its limit fields are in order, and no limited window would be exceeded. */
  predicate GoesAhead(cfg: Config, js: Json, q: Request, k: KeyQuota)
    requires q.o.byModel && q.parse.Parsed?
  {
    var reservation := ReservationFor(cfg, q.o, q.parse.model, q.parse.stream, q.ensureUsage);
    && InOrder(cfg, js, q)
    && (q.limits.tokensPerHour > 0 ==> k.hour.count + reservation <= q.limits.tokensPerHour)
    && (q.limits.tokensPerDay > 0 ==> k.day.count + reservation <= q.limits.tokensPerDay)
  }

  predicate InOrder(cfg: Config, js: Json, q: Request)
    requires q.o.byModel && q.parse.Parsed?
  {
    var cap := CapOf(cfg, q.parse.model);
    q.o.Generative() && cap > 0 ==>
      LimitOk(js, q.parse.fields, q.o.capField, cap) && (q.o.altCapField != "" ==> LimitOk(js, q.parse.fields, q.o.altCapField, cap))
  }

  /** The counts and limits of a quota state as the code holds them. */
  predicate InRange(q: Request, k: KeyQuota) {
    IsInt64(q.limits.tokensPerHour) && IsInt64(q.limits.tokensPerDay) && 0 <= k.hour.count <= MAX_INT64 && 0 <= k.day.count <= MAX_INT64
  }

  /**
   What any request comes out as, from the request, the quota state and the answer alone: who is
   refused with which status, and what exactly is charged and recorded for everyone else.
   */
  lemma ServedIs(cfg: Config, js: Json, q: Request, s: States, admitAt: nat, a: Answer)
    requires cfg.Validated() && IsOperation(q.o) && InRange(q, Current(s, q.keyId, admitAt))
    ensures var out, k := Served(cfg, js, q, s, admitAt, a), Current(s, q.keyId, admitAt);
            if !Admissible(cfg, q) then out.status == DeniedStatus(cfg, q) && Charge(out) == out.usage.total == 0
            else if q.o.byModel && !GoesAhead(cfg, js, q, k) then
              out.status == (if InOrder(cfg, js, q) then 429 else 400) && Charge(out) == out.usage.total == 0
            else
              && out.status == D.StatusOf(a.event)
              && out.usage.total == (if Reports(q, a) then ReportedAmount(a.report.value) else 0)
              && Charge(out) == if Reports(q, a) then ReportedAmount(a.report.value)
                                else if q.o.byModel && 200 <= out.status <= 299 then Fallback(cfg, q.parse.model) else 0
  {
    PassesExactly(cfg, q);
    if a.report.Some? {
      UsageIsTheReport(a.report.value);
    }
    if !Admissible(cfg, q) {
      DeniedWith(cfg, q);
    } else if q.o.byModel {
      GoesAheadIff(cfg, js, q, Current(s, q.keyId, admitAt));
    }
  }

  /** The status of a request the gates refuse. */
  function DeniedStatus(cfg: Config, q: Request): int {
    if !q.o.byModel then 404
    else if !q.parse.Parsed? || (q.parse.stream && q.o.capField == "") then 400
    else if !q.allows(q.parse.model) || q.parse.model !in cfg.models then 404
    else if !Servable(cfg, q.o, q.parse.model, q.parse.stream) then 400
    else 404
  }

  lemma DeniedWith(cfg: Config, q: Request)
    requires IsOperation(q.o) && Resolved(cfg, q).Denied?
    ensures DenialStatus(Resolved(cfg, q).error) == DeniedStatus(cfg, q)
  {
  }

  lemma GoesAheadIff(cfg: Config, js: Json, q: Request, k: KeyQuota)
    requires cfg.Validated() && IsOperation(q.o) && q.o.byModel && q.parse.Parsed? && InRange(q, k)
    ensures var r := ReservationFor(cfg, q.o, q.parse.model, q.parse.stream, q.ensureUsage);
            && (CapRefuses(cfg, js, q, q.parse.fields, q.parse.model) <==> !InOrder(cfg, js, q))
            && (!CapRefuses(cfg, js, q, q.parse.fields, q.parse.model) && !QuotaRefuses(q, k, r) <==> GoesAhead(cfg, js, q, k))
  {
    var r := ReservationFor(cfg, q.o, q.parse.model, q.parse.stream, q.ensureUsage);
    CapAcceptsIff(js, q.parse.fields, q.o, CapOf(cfg, q.parse.model));
    OverIff(q.limits.tokensPerHour, k.hour.count, r);
    OverIff(q.limits.tokensPerDay, k.day.count, r);
  }

  /** What is charged for a success of this model that nobody reports usage for. */
  function Fallback(cfg: Config, model: string): int
    requires model in cfg.models
  {
    if cfg.unknownReservation > 0 then cfg.unknownReservation
    else if cfg.models[model].typ == Generation then cfg.models[model].maxOutputTokens else 0
  }

  predicate HasPositive(r: Report) {
    r.input > 0 || r.output > 0 || r.total > 0
  }

  /** The report is there, and no count in it is positive. */
  predicate NegativeOnly(r: Report) {
    r != Report(0, 0, 0) && !HasPositive(r)
  }

  /**
   A model-routed request that ends in success, by whatever route through the pipeline, is charged
   the configuration's fallback when usage is unknown, whatever the client wrote, and the reported
   amount otherwise; under a configuration the check accepts for a store with a quota, it is
   charged something if and only if it does not come with a report of nothing but negative counts.
   */
  lemma SuccessIsCharged(cfg: Config, keys: seq<Key>, js: Json, q: Request, s: States, admitAt: nat, a: Answer)
    requires cfg.Validated() && IsOperation(q.o) && q.o.byModel
    requires IsSuccess(Served(cfg, js, q, s, admitAt, a).status)
    ensures q.parse.Parsed? && q.parse.model in cfg.models
    ensures var out := Served(cfg, js, q, s, admitAt, a);
            && Charge(out) == (if Reports(q, a) then ReportedAmount(a.report.value) else Fallback(cfg, q.parse.model))
            && 0 <= Charge(out) <= MAX_INT64
            && (HasQuota(keys) && CheckQuota(cfg, keys) == Accepted ==>
                  (Charge(out) > 0 <==> !(a.report.Some? && NegativeOnly(a.report.value))))
  {
    PassesExactly(cfg, q);
    if a.report.Some? {
      UsageIsTheReport(a.report.value);
    }
    if HasQuota(keys) && CheckQuota(cfg, keys) == Accepted {
      CheckIsExact(cfg, keys);
      assert ReservationFor(cfg, q.o, q.parse.model, q.parse.stream, q.ensureUsage) > 0;
    }
  }

  /** Any model-routed request that ends in success with such a report is free, whatever the configuration. */
  lemma NegativeReportIsFree(cfg: Config, js: Json, q: Request, s: States, admitAt: nat, a: Answer, r: Report)
    requires cfg.Validated() && IsOperation(q.o) && q.o.byModel && NegativeOnly(r) && a.report == Some(r)
    requires IsSuccess(Served(cfg, js, q, s, admitAt, a).status)
    ensures Charge(Served(cfg, js, q, s, admitAt, a)) == 0
  {
    UsageIsTheReport(r);
    SuccessIsCharged(cfg, [], js, q, s, admitAt, a);
  }

  /** A settled charge moves both of the key's windows forward, up to saturation. */
  lemma SettlingAdvances(s: States, keyId: string, tokens: int, now: nat)
    requires 0 < tokens <= MAX_INT64
    requires var k := Current(s, keyId, now); 0 <= k.hour.count < MAX_INT64 && 0 <= k.day.count < MAX_INT64
    ensures var k, k' := Current(s, keyId, now), Current(Settled(s, keyId, tokens, now), keyId, now);
            k'.hour.count > k.hour.count && k'.day.count > k.day.count
  {
    var k := Current(s, keyId, now);
    SatAddClamps(k.hour.count, tokens);
    SatAddClamps(k.day.count, tokens);
  }

  /**
   A quota that passed the check always advances: every successful model-routed request whose usage
   stays unknown moves both windows of its key, in whatever state it settles.
   */
  lemma QuotaAlwaysAdvances(cfg: Config, keys: seq<Key>, js: Json, q: Request, s: States, admitAt: nat, a: Answer, at: States, now: nat)
    requires cfg.Validated() && HasQuota(keys) && CheckQuota(cfg, keys) == Accepted
    requires IsOperation(q.o) && q.o.byModel
    requires var out := Served(cfg, js, q, s, admitAt, a); IsSuccess(out.status) && !out.exact
    requires var k := Current(at, q.keyId, now); 0 <= k.hour.count < MAX_INT64 && 0 <= k.day.count < MAX_INT64
    ensures var charge := Charge(Served(cfg, js, q, s, admitAt, a));
            var k, k' := Current(at, q.keyId, now), Current(Settled(at, q.keyId, charge, now), q.keyId, now);
            charge > 0 && k'.hour.count > k.hour.count && k'.day.count > k.day.count
  {
    SuccessIsCharged(cfg, keys, js, q, s, admitAt, a);
    PassesExactly(cfg, q);
    SettlingAdvances(at, q.keyId, Charge(Served(cfg, js, q, s, admitAt, a)), now);
  }

  /**
   Whatever does not end in success settles nothing, with one exception: an answer relayed with a
   status below 200 (from 300 on Forward returns an error) whose report has a positive count.
   */
  lemma ErrorsSettleNothing(cfg: Config, js: Json, q: Request, s: States, admitAt: nat, a: Answer)
    requires IsOperation(q.o) && (a.event.Relayed? ==> a.event.status < 300)
    requires !IsSuccess(Served(cfg, js, q, s, admitAt, a).status)
    ensures var out := Served(cfg, js, q, s, admitAt, a);
            && Charge(out) >= 0
            && (Charge(out) > 0 <==> out.exact && out.status < 200 && HasPositive(a.report.value))
            && (Charge(out) > 0 ==> Reports(q, a) && a.event.Relayed? && Charge(out) == ReportedAmount(a.report.value))
  {
    if a.report.Some? {
      UsageIsTheReport(a.report.value);
    }
  }

  /** The record of any request replays as exactly the amount that was settled for it. */
  lemma ReplayChargesWhatWasSettled(cfg: Config, js: Json, q: Request, s: States, admitAt: nat, a: Answer, at: nat)
    requires cfg.Validated() && IsOperation(q.o) && q.keyId != ""
    ensures var out := Served(cfg, js, q, s, admitAt, a);
            var r := Record(at, q.keyId, Charge(out), out.usage.total);
            && Faithful(r)
            && (if ReplayTokens(r) > 0 then ReplayTokens(r) else 0) == (if r.charged > 0 then r.charged else 0)
  {
    PassesExactly(cfg, q);
    if a.report.Some? {
      UsageIsTheReport(a.report.value);
    }
  }
}
