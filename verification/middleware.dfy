/** The middleware: its configuration (extractors, trace-ID generator and
    filter, with defaults and functional options applied in order), the
    admission decision for one request, and the non-blocking hand-off of
    the resulting record to the ingestion queue. */
module Middleware {
  import opened TraceRecord
  import Hex
  import IngestionQueue

  /** What the middleware reads from a request context. */
  datatype Context = Context(
    query: map<string, string>,  // first value of each query parameter
    fullPath: string,
    httpMethod: string,
    clientIp: string,
    userAgent: string)

  /** `c.Query(key)`: the parameter's value, or "" when it is absent. */
  function Query(c: Context, key: string): string
  {
    if key in c.query then c.query[key] else ""
  }

  datatype MiddlewareConfig = MiddlewareConfig(
    userIdExtractor: Context -> string,
    tokenExtractor: Context -> string,
    traceIdGenerator: (string, string) -> string,
    filter: Context -> bool)

  /** A functional option. `WithUserIDExtractor`, `WithTokenExtractor`,
      `WithTraceIDGenerator` and `WithFilter` each replace one field; any
      other `func(*MiddlewareConfig)` a caller passes is `Custom`, an
      arbitrary update of the whole configuration. */
  datatype MiddlewareOption =
    | WithUserIdExtractor(extractor: Context -> string)
    | WithTokenExtractor(extractor: Context -> string)
    | WithTraceIdGenerator(generator: (string, string) -> string)
    | WithFilter(filter: Context -> bool)
    | Custom(update: MiddlewareConfig -> MiddlewareConfig)

  function DefaultUserIdExtractor(c: Context): string
  {
    Query(c, "user_id")
  }

  function DefaultTokenExtractor(c: Context): string
  {
    Query(c, "access_token")
  }

  function DefaultFilter(c: Context): bool
  {
    true
  }

  /** `defaultTraceIDGenerator`: the user ID, a colon, and the lower-case hex
      SHA-256 digest of the token. The hash is a parameter of the model. */
  function DefaultTraceId(sha256: string -> Hex.Digest, userId: string, token: string): (id: string)
    ensures |id| == |userId| + 65
    ensures id[..|userId|] == userId && id[|userId|] == ':'
    ensures forall i :: |userId| < i < |id| ==> Hex.IsHexDigit(id[i])
  {
    userId + ":" + Hex.Encode(sha256(token))
  }

  /** The default trace ID determines the user ID and the token's digest. */
  lemma DefaultTraceIdInjective(sha256: string -> Hex.Digest, u1: string, t1: string, u2: string, t2: string)
    requires DefaultTraceId(sha256, u1, t1) == DefaultTraceId(sha256, u2, t2)
    ensures u1 == u2 && sha256(t1) == sha256(t2)
  {
    var id := DefaultTraceId(sha256, u1, t1);
    assert |u1| == |u2|;
    assert u1 == id[..|u1|] == u2;
    assert Hex.Encode(sha256(t1)) == id[|u1| + 1..] == Hex.Encode(sha256(t2));
    Hex.EncodeInjective(sha256(t1), sha256(t2));
  }

  function Defaults(sha256: string -> Hex.Digest): MiddlewareConfig
  {
    MiddlewareConfig(
      DefaultUserIdExtractor,
      DefaultTokenExtractor,
      (userId, token) => DefaultTraceId(sha256, userId, token),
      DefaultFilter)
  }

  function Apply(cfg: MiddlewareConfig, opt: MiddlewareOption): MiddlewareConfig
  {
    match opt
    case WithUserIdExtractor(f) => cfg.(userIdExtractor := f)
    case WithTokenExtractor(f) => cfg.(tokenExtractor := f)
    case WithTraceIdGenerator(g) => cfg.(traceIdGenerator := g)
    case WithFilter(f) => cfg.(filter := f)
    case Custom(g) => g(cfg)
  }

  /** The options applied one after the other, left to right. */
  function ApplyOptions(cfg: MiddlewareConfig, opts: seq<MiddlewareOption>): MiddlewareConfig
    decreases |opts|
  {
    if opts == [] then cfg else ApplyOptions(Apply(cfg, opts[0]), opts[1..])
  }

  lemma {:induction false} ApplyOptionsAppend(cfg: MiddlewareConfig, a: seq<MiddlewareOption>, b: seq<MiddlewareOption>)
    ensures ApplyOptions(cfg, a + b) == ApplyOptions(ApplyOptions(cfg, a), b)
    decreases |a|
  {
    if a != [] {
      assert (a + b)[1..] == a[1..] + b;
      ApplyOptionsAppend(Apply(cfg, a[0]), a[1..], b);
    } else {
      assert a + b == b;
    }
  }

  /** The four configurable fields. */
  datatype Field = UserIdField | TokenField | GeneratorField | FilterField

  /** `opt` may change field `f`: a `With…` option changes its own field
      only, a custom option may change any. */
  predicate Sets(opt: MiddlewareOption, f: Field)
  {
    opt.Custom? ||
    match f
    case UserIdField => opt.WithUserIdExtractor?
    case TokenField => opt.WithTokenExtractor?
    case GeneratorField => opt.WithTraceIdGenerator?
    case FilterField => opt.WithFilter?
  }

  ghost predicate SameField(a: MiddlewareConfig, b: MiddlewareConfig, f: Field)
  {
    match f
    case UserIdField => a.userIdExtractor == b.userIdExtractor
    case TokenField => a.tokenExtractor == b.tokenExtractor
    case GeneratorField => a.traceIdGenerator == b.traceIdGenerator
    case FilterField => a.filter == b.filter
  }

  /** A field no option sets keeps its value. */
  lemma {:induction false} UnsetFieldKept(cfg: MiddlewareConfig, opts: seq<MiddlewareOption>, f: Field)
    requires forall i :: 0 <= i < |opts| ==> !Sets(opts[i], f)
    ensures SameField(ApplyOptions(cfg, opts), cfg, f)
    decreases |opts|
  {
    if opts != [] {
      UnsetFieldKept(Apply(cfg, opts[0]), opts[1..], f);
    }
  }

  /** The last option that may change a field decides it: the field is what
      that option made of the configuration before it. A `With…` option sets
      its field regardless of what came before, so it wins over earlier
      options and over the default. */
  lemma LastOptionWins(cfg: MiddlewareConfig, opts: seq<MiddlewareOption>, i: nat, f: Field)
    requires i < |opts| && Sets(opts[i], f)
    requires forall j :: i < j < |opts| ==> !Sets(opts[j], f)
    ensures SameField(ApplyOptions(cfg, opts), Apply(ApplyOptions(cfg, opts[..i]), opts[i]), f)
    ensures !opts[i].Custom? ==> SameField(ApplyOptions(cfg, opts), Apply(cfg, opts[i]), f)
  {
    assert opts == opts[..i] + [opts[i]] + opts[i + 1..];
    ApplyOptionsAppend(cfg, opts[..i] + [opts[i]], opts[i + 1..]);
    ApplyOptionsAppend(cfg, opts[..i], [opts[i]]);
    var mid := ApplyOptions(ApplyOptions(cfg, opts[..i]), [opts[i]]);
    assert mid == Apply(ApplyOptions(cfg, opts[..i]), opts[i]);
    UnsetFieldKept(mid, opts[i + 1..], f);
  }

  /** `MiddlewareWithConfig(options...)`: start from the defaults and apply
      each option in turn. */
  method MiddlewareWithConfig(sha256: string -> Hex.Digest, options: seq<MiddlewareOption>)
    returns (config: MiddlewareConfig)
    ensures config == ApplyOptions(Defaults(sha256), options)
  {
    config := Defaults(sha256);
    for i := 0 to |options|
      invariant config == ApplyOptions(Defaults(sha256), options[..i])
    {
      ApplyOptionsAppend(Defaults(sha256), options[..i], [options[i]]);
      assert options[..i + 1] == options[..i] + [options[i]];
      config := Apply(config, options[i]);
    }
    assert options[..|options|] == options;
  }

  /** The admission decision for one request: a record is produced exactly
      when the filter accepts the request and both the user ID and the token
      are non-empty. `status`, `latencyMs` and `now` are what the handler
      chain and the clock report; they are parameters here. */
  function Admit(config: MiddlewareConfig, c: Context, status: int, latencyMs: int, now: int): (r: Option<Step>)
    ensures r.Some? <==> config.filter(c) && config.userIdExtractor(c) != "" && config.tokenExtractor(c) != ""
    ensures r.Some? ==> r.value.userId == config.userIdExtractor(c) != ""
    ensures r.Some? ==> r.value.traceId == config.traceIdGenerator(config.userIdExtractor(c), config.tokenExtractor(c))
    ensures r.Some? ==> r.value.path == c.fullPath && r.value.statusCode == status && r.value.createdAt == now
  {
    if !config.filter(c) then None
    else
      var userId := config.userIdExtractor(c);
      var token := config.tokenExtractor(c);
      if userId == "" || token == "" then None
      else
        var traceId := config.traceIdGenerator(userId, token);
        Some(Step(traceId, userId, c.fullPath, c.httpMethod, status, latencyMs, c.clientIp, c.userAgent, now))
  }

  /** With the default configuration a request is traced exactly when both
      `user_id` and `access_token` query parameters are present and
      non-empty, under the trace ID derived from them. */
  lemma DefaultAdmission(sha256: string -> Hex.Digest, c: Context, status: int, latencyMs: int, now: int)
    ensures Admit(Defaults(sha256), c, status, latencyMs, now).Some?
        <==> Query(c, "user_id") != "" && Query(c, "access_token") != ""
    ensures Admit(Defaults(sha256), c, status, latencyMs, now).Some? ==>
              Admit(Defaults(sha256), c, status, latencyMs, now).value.traceId
                == DefaultTraceId(sha256, Query(c, "user_id"), Query(c, "access_token"))
  {
  }

  datatype Admission = NotTraced | Enqueued | Dropped

  /** The middleware's handler for one request: decide admission, then try
      to enqueue the record without waiting; a full queue drops it. */
  method Handle(config: MiddlewareConfig, q: IngestionQueue.Channel, c: Context, status: int, latencyMs: int, now: int)
    returns (outcome: Admission)
    requires q.Valid() && !q.closed
    modifies q
    ensures q.Valid() && !q.closed
    ensures outcome == NotTraced <==> Admit(config, c, status, latencyMs, now).None?
    ensures outcome == Enqueued ==> q.items == old(q.items) + [Admit(config, c, status, latencyMs, now).value]
    ensures outcome == Enqueued <==> Admit(config, c, status, latencyMs, now).Some? && |old(q.items)| < q.capacity
    ensures outcome != Enqueued ==> q.items == old(q.items)
  {
    var r := Admit(config, c, status, latencyMs, now);
    if r.None? {
      return NotTraced;
    }
    var sent := q.TrySend(r.value);
    outcome := if sent then Enqueued else Dropped;
  }
}
