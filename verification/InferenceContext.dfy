/**
  Admission, reuse and filling of the native inference context. Sizes are natural numbers; the
  checks of the engine keep every one of them far below the widths the program uses (see
  `NothingWraps`).
 */
module InferenceContext {
  import opened Basics

  const U32: nat := 0x1_0000_0000
  const U64: nat := 0x1_0000_0000_0000_0000
  const BLOCK: nat := 256
  const SPARE: nat := 8
  const SMALLEST: nat := 512

  // ---- Admission ---------------------------------------------------------------------------

  /** `None` for a temperature or probability that is not finite. */
  datatype Config = Config(
    maxTokens: nat, temperature: Option<real>, topP: Option<real>, threads: int,
    ctx: nat, batch: nat, timeoutMs: nat, kvLimit: nat)

  /** What the model file says; both are 32-bit signed in the program. */
  datatype Shape = Shape(layers: int, width: int)

  datatype Refusal =
    | BadTemperature | BadTopP | NoThreads | ResourceLimit
    | NoTokens | ContextLimit | ContextTooLarge | MemoryBudget

  datatype Plan = Plan(context: nat, batch: nat, threads: nat)

  function Max(a: int, b: int): int { if a < b then b else a }
  function Min(a: nat, b: nat): nat { if a < b then a else b }

  function Rounded(value: nat): nat { (value + BLOCK - 1) / BLOCK * BLOCK }

  function RoundContext(value: nat): Result<nat, Refusal> {
    if Rounded(value) >= U32 then Err(ContextTooLarge) else Ok(Rounded(value))
  }

  function Limit(config: Config): nat { if config.ctx == 0 then 8192 else config.ctx }

  function Required(config: Config, prompt: nat): nat { prompt + config.maxTokens + SPARE }

  /** Bytes of keys and values for one token, a dense estimate. */
  function PerToken(shape: Shape): (r: nat)
    ensures r > 0
  {
    ProductIsPositive(Max(shape.layers, 1), Max(shape.width, 1));
    Max(shape.layers, 1) * Max(shape.width, 1) * 4
  }

  lemma ProductIsPositive(a: nat, b: nat)
    requires a > 0 && b > 0
    ensures a * b > 0
  {
  }

  /** The largest whole number of blocks within both limits. */
  function Budget(config: Config, shape: Shape): nat {
    Blocks(Min(Limit(config), Quotient(config.kvLimit, PerToken(shape)))) * BLOCK
  }

  function Blocks(n: nat): nat { n / BLOCK }

  function Quotient(total: nat, unit: nat): nat
    requires unit > 0
  {
    QuotientIsNat(total, unit);
    total / unit
  }

  lemma QuotientIsNat(total: nat, unit: nat)
    requires unit > 0
    ensures total / unit >= 0
  {
  }

  function RefusedByLimits(config: Config, promptBytes: nat): Option<Refusal> {
    if config.temperature.None? || config.temperature.value < 0.0 then Some(BadTemperature)
    else if config.topP.None? || config.topP.value <= 0.0 || config.topP.value > 1.0 then Some(BadTopP)
    else if config.threads <= 0 then Some(NoThreads)
    else if || promptBytes > 1024 * 1024 || config.ctx > 32768 || config.maxTokens > 8192
            || config.batch > 2048 || config.threads > 256
            || config.timeoutMs == 0 || config.timeoutMs > 3600000
            || config.kvLimit < 16 * 1024 * 1024 || config.kvLimit > 4 * 1024 * 1024 * 1024
    then Some(ResourceLimit)
    else None
  }

  /** The limits, and which refusal names which. */
  lemma LimitsAre(config: Config, promptBytes: nat)
    ensures RefusedByLimits(config, promptBytes) == Some(BadTemperature) <==>
            !(config.temperature.Some? && config.temperature.value >= 0.0)
    ensures RefusedByLimits(config, promptBytes) == Some(BadTopP) ==>
              !(config.topP.Some? && 0.0 < config.topP.value <= 1.0)
    ensures RefusedByLimits(config, promptBytes) == Some(NoThreads) ==> config.threads < 1
    ensures RefusedByLimits(config, promptBytes) == None <==>
            && config.temperature.Some? && 0.0 <= config.temperature.value
            && config.topP.Some? && 0.0 < config.topP.value <= 1.0 && 1 <= config.threads <= 256
            && promptBytes <= 0x10_0000 && config.ctx <= 0x8000 && config.maxTokens <= 0x2000 && config.batch <= 0x800
            && 1 <= config.timeoutMs <= 3_600_000 && 0x100_0000 <= config.kvLimit <= 0x1_0000_0000
    ensures RefusedByLimits(config, promptBytes).Some? ==>
              RefusedByLimits(config, promptBytes).value in {BadTemperature, BadTopP, NoThreads, ResourceLimit}
  {
  }

  function Admit(config: Config, shape: Shape, prompt: nat): Result<Plan, Refusal> {
    if prompt == 0 then Err(NoTokens)
    else
      var required := Required(config, prompt);
      if required > Limit(config) || Limit(config) < SMALLEST then Err(ContextLimit)
      else
        match RoundContext(required)
        case Err(e) => Err(e)
        case Ok(rounded) =>
          if Budget(config, shape) < rounded || Budget(config, shape) < SMALLEST then Err(MemoryBudget)
          else
            var context := Max(SMALLEST, rounded);
            Ok(Plan(context, Max(32, Min(Wanted(config), context)), Max(config.threads, 1)))
  }

  /** A context of `n` tokens serves the call: whole blocks, room for the prompt, the answer and the
      spare tokens, and within the configured size and memory. */
  predicate Serves(n: nat, config: Config, shape: Shape, prompt: nat) {
    && n % BLOCK == 0 && SMALLEST <= n
    && prompt + config.maxTokens + SPARE <= n <= Limit(config)
    && n * PerToken(shape) <= config.kvLimit
  }

  lemma FitsIffBelowQuotient(n: nat, unit: nat, total: nat)
    requires unit > 0
    ensures n * unit <= total <==> n <= Quotient(total, unit)
  {
    var q := Quotient(total, unit);
    assert q * unit <= total < (q + 1) * unit;
    if n <= q {
      Monotone(n, q, unit);
    } else {
      Monotone(q + 1, n, unit);
    }
  }

  lemma Monotone(a: nat, b: nat, unit: nat)
    requires a <= b
    ensures a * unit <= b * unit
  {
  }

  lemma WholeBlocks(n: nat, m: nat)
    requires n % BLOCK == 0
    ensures n <= m <==> n <= Blocks(m) * BLOCK
    ensures m <= n <==> Rounded(m) <= n
  {
  }

  lemma ServesIffWithin(n: nat, config: Config, shape: Shape, prompt: nat)
    ensures Serves(n, config, shape, prompt) <==>
            n % BLOCK == 0 && SMALLEST <= n && Rounded(Required(config, prompt)) <= n <= Budget(config, shape)
  {
    hide PerToken, Rounded, Quotient, Blocks;
    FitsIffBelowQuotient(n, PerToken(shape), config.kvLimit);
    if n % BLOCK == 0 {
      WholeBlocks(n, Min(Limit(config), Quotient(config.kvLimit, PerToken(shape))));
      WholeBlocks(n, Required(config, prompt));
    }
  }

  lemma RoundedIsWhole(m: nat)
    ensures Rounded(m) % BLOCK == 0 && m <= Rounded(m) < m + BLOCK
  {
  }

  /** A call is admitted exactly when some context serves it, and then the planned context is the
      smallest one that does. */
  lemma AdmittedIffServable(config: Config, shape: Shape, prompt: nat)
    requires config.ctx <= 32768
    ensures Admit(config, shape, prompt).Ok? <==> prompt > 0 && exists n: nat :: Serves(n, config, shape, prompt)
    ensures Admit(config, shape, prompt).Ok? ==>
              var plan := Admit(config, shape, prompt).value;
              && Serves(plan.context, config, shape, prompt)
              && forall n: nat :: Serves(n, config, shape, prompt) ==> plan.context <= n
  {
    hide Serves, Rounded, PerToken, Budget;
    var required := Required(config, prompt);
    RoundedIsWhole(required);
    var least := Max(SMALLEST, Rounded(required));
    forall n: nat
      ensures Serves(n, config, shape, prompt) ==> least <= n <= Budget(config, shape) && n <= Limit(config)
    {
      ServesIffWithin(n, config, shape, prompt);
      ServesWithin(n, config, shape, prompt);
    }
    ServesIffWithin(least, config, shape, prompt);
    ServesWithin(least, config, shape, prompt);
    assert required <= Limit(config) ==> Rounded(required) < U32;
  }

  /** Nothing in the model file or the memory limit would help: no size, in whole blocks or not, is
      within the configured limit and large enough. */
  ghost predicate NoSizeFits(config: Config, prompt: nat) {
    forall n: nat :: !HasRoom(n, config, prompt)
  }

  predicate HasRoom(n: nat, config: Config, prompt: nat) {
    SMALLEST <= n <= Limit(config) && prompt + config.maxTokens + SPARE <= n
  }

  /** Which refusal it is. The planned batch is what was configured, 512 if nothing was, or the end of
      the range from 32 to the context that is nearest to it; the threads are as configured. */
  lemma AdmissionAnswers(config: Config, shape: Shape, prompt: nat)
    requires config.ctx <= 32768
    ensures Admit(config, shape, prompt) == Err(NoTokens) <==> prompt == 0
    ensures Admit(config, shape, prompt) == Err(ContextLimit) <==> prompt > 0 && NoSizeFits(config, prompt)
    ensures Admit(config, shape, prompt).Err? ==>
              Admit(config, shape, prompt).error in {NoTokens, ContextLimit, MemoryBudget}
    ensures Admit(config, shape, prompt).Ok? ==>
              var plan := Admit(config, shape, prompt).value;
              && 32 <= plan.batch <= plan.context
              && (plan.batch < Wanted(config) ==> plan.batch == plan.context)
              && (plan.batch > Wanted(config) ==> plan.batch == 32)
              && (config.threads >= 1 ==> plan.threads == config.threads)
  {
    hide Serves, Rounded, PerToken, Budget;
    var required := Required(config, prompt);
    RoundedIsWhole(required);
    assert required <= Limit(config) ==> Rounded(required) < U32;
    assert NoSizeFits(config, prompt) ==> !HasRoom(Limit(config), config, prompt);
  }

  function Wanted(config: Config): nat {
    if config.batch == 0 then 512 else config.batch
  }

  lemma ServesWithin(n: nat, config: Config, shape: Shape, prompt: nat)
    ensures Serves(n, config, shape, prompt) ==> SMALLEST <= n <= Limit(config) && Required(config, prompt) <= n
  {
  }

  /** After the resource limits, no intermediate value leaves its width: the rounded size fits 32
      bits, so that refusal never happens, and the bytes of one token fit 64 bits for any model. */
  lemma NothingWraps(config: Config, shape: Shape, promptBytes: nat, prompt: nat)
    requires RefusedByLimits(config, promptBytes) == None
    requires shape.layers < 0x8000_0000 && shape.width < 0x8000_0000
    ensures PerToken(shape) < U64
    ensures Admit(config, shape, prompt) != Err(ContextTooLarge)
    ensures prompt < 0x8000_0000 ==>
                Required(config, prompt) + BLOCK - 1 < U64 && Rounded(Required(config, prompt)) < U64
    ensures Admit(config, shape, prompt).Ok? ==>
                Required(config, prompt) <= 32768 && Admit(config, shape, prompt).value.context <= 32768
    ensures Admit(config, shape, prompt).Ok? ==>
                && Admit(config, shape, prompt).value.batch <= 2048
                && 1 <= Admit(config, shape, prompt).value.threads <= 256
  {
    var a, b := Max(shape.layers, 1), Max(shape.width, 1);
    Monotone(a, 0x7FFF_FFFF, b);
    Monotone(b, 0x7FFF_FFFF, 0x7FFF_FFFF);
    RoundedIsWhole(Required(config, prompt));
    AdmittedIffServable(config, shape, prompt);
    AdmissionAnswers(config, shape, prompt);
  }

  // ---- The engine --------------------------------------------------------------------------

  datatype Context = Context(
    capacity: nat, batch: nat, threads: nat, adapter: Option<nat>, chunks: seq<seq<int>>, callback: bool)

  function Cells(c: Context): seq<int> { Flatten(c.chunks) }

  function MustRebuild(context: Option<Context>, capacity: nat, batch: nat, threads: nat, plan: Plan): bool {
    || context.None? || plan.context > capacity || (capacity > 0 && plan.context < capacity / 2)
    || plan.batch != batch || plan.threads != threads
  }

  datatype Ended =
    | Nothing | Refused(why: Refusal) | Late | NoContext | NoAdapter | DecodeFailed | NoSampler
    | Stopped | Completed
  {
    /** The ways to end once sampling has begun. */
    predicate WhileSampling() {
      this in {Completed, Stopped, Late, DecodeFailed}
    }
  }

  /** What the host has seen of the calls so far: the questions answered, of them those to the sampler,
      to the listener and to the clock; the tokens the listener was told; and whether the listener or
      the clock ever stopped a call. */
  datatype Record = Record(
    tick: nat, draws: nat, asks: nat, checks: nat, told: seq<int>, hushed: bool, expired: bool)

  /** The library, the clock and the listener: arbitrary answers, by the number of the question. The
      questions to the sampler are numbered for themselves. */
  class Host {
    const late: nat -> bool
    const grants: nat -> bool
    const listens: nat -> bool
    const samples: nat -> Option<int>
    var seen: Record

    constructor (late: nat -> bool, grants: nat -> bool, listens: nat -> bool, samples: nat -> Option<int>)
      ensures this.late == late && this.grants == grants && this.listens == listens && this.samples == samples
    {
      this.late, this.grants, this.listens, this.samples := late, grants, listens, samples;
      seen := Record(0, 0, 0, 0, [], false, false);
    }

    /** Never late, never refusing, always listening. */
    ghost predicate Obliging() {
      NeverLate() && AlwaysGrants() && AlwaysListens()
    }

    ghost predicate AlwaysListens() {
      forall t: nat :: listens(t)
    }

    ghost predicate NeverLate() {
      forall t: nat :: !late(t)
    }

    ghost predicate AlwaysGrants() {
      forall t: nat :: grants(t)
    }

    /** Asks the library for something it may refuse. */
    method Request() returns (granted: bool)
      modifies this
      ensures granted == grants(old(seen).tick) && seen == old(seen).(tick := old(seen).tick + 1)
    {
      granted := grants(seen.tick);
      seen := seen.(tick := seen.tick + 1);
    }

    /** The sampler's next answer, `None` at the end of the text. */
    method Draw() returns (token: Option<int>)
      modifies this
      ensures token == samples(old(seen).draws) && seen == old(seen).(draws := old(seen).draws + 1)
    {
      token := samples(seen.draws);
      seen := seen.(draws := seen.draws + 1);
    }

    /** Asks the listener whether to go on, handing it the new tokens. */
    method Ask(news: seq<int>) returns (on: bool)
      modifies this
      ensures on == listens(old(seen).tick) && seen == Asked(old(seen), news, on)
    {
      on := listens(seen.tick);
      seen := Asked(seen, news, on);
    }

    /** Looks at the clock. */
    method Check() returns (inTime: bool)
      modifies this
      ensures inTime == !late(old(seen).tick) && seen == Checked(old(seen), inTime)
    {
      inTime := !late(seen.tick);
      seen := Checked(seen, inTime);
    }

    /** These are the sampler's answers from question `first` on. */
    ghost predicate Drew(first: nat, tokens: seq<int>) {
      forall k | 0 <= k < |tokens| :: samples(first + k) == Some(tokens[k])
    }
  }

  function Asked(r: Record, news: seq<int>, on: bool): Record {
    r.(tick := r.tick + 1, asks := r.asks + 1, told := r.told + news, hushed := r.hushed || !on)
  }

  function Checked(r: Record, inTime: bool): Record {
    r.(tick := r.tick + 1, checks := r.checks + 1, expired := r.expired || !inTime)
  }

  class Engine {
    const shape: Shape
    var adapter: Option<nat>
    var context: Option<Context>
    var capacity: nat
    var batch: nat
    var threads: nat

    constructor (shape: Shape)
      ensures Valid() && this.shape == shape && adapter == None && context == None
    {
      this.shape := shape;
      adapter, context, capacity, batch, threads := None, None, 0, 0, 0;
    }

    /** There is a context exactly when there is capacity; the fields describe it, it carries the
        adapter in force, and no deadline callback is left on it. */
    predicate Valid()
      reads this
    {
      && (context.Some? <==> capacity > 0)
      && (context.Some? ==>
            && Described() && !context.value.callback
            && Within(context.value))
    }

    predicate Described()
      reads this
      requires context.Some?
    {
      var c := context.value;
      c.capacity == capacity && c.batch == batch && c.threads == threads && c.adapter == adapter
    }

    predicate FitsMemory(bound: nat)
      reads this
    {
      context.Some? ==> capacity * PerToken(shape) <= bound
    }

    /** Whole blocks of at least the smallest size, and a batch no larger than the context. */
    predicate Within(c: Context) {
      c.capacity % BLOCK == 0 && SMALLEST <= c.capacity && 0 < c.batch <= c.capacity
    }

    predicate Fits(c: Context, chunk: seq<int>) {
      0 < |chunk| <= c.batch && |Cells(c)| + |chunk| <= c.capacity
    }

    method LoadAdapter(loaded: Option<nat>) returns (ok: bool)
      modifies this
      ensures Valid() && context == None && adapter == loaded && ok == loaded.Some?
    {
      context := None;
      capacity, batch := 0, 0;
      adapter := loaded;
      ok := adapter.Some?;
    }

    method ClearKvCache()
      requires Valid()
      modifies this`context
      ensures Valid() && context.Some? == old(context).Some?
      ensures context.Some? ==> context.value == old(context).value.(chunks := [])
    {
      if context.Some? {
        context := Some(context.value.(chunks := []));
      }
    }

    /** A context for the plan: the old one if it is close enough in size and equal otherwise, else
        a new one. Whatever fails, the engine is left with a context or plainly without one. */
    method EnsureContext(plan: Plan, h: Host) returns (failed: Option<Ended>)
      requires Valid() && plan.context % BLOCK == 0 && SMALLEST <= plan.context && 0 < plan.batch <= plan.context
      modifies this`context, this`capacity, this`batch, this`threads, h
      ensures Valid()
      ensures h.seen == old(h.seen).(tick := h.seen.tick)
      ensures h.AlwaysGrants() ==> failed == None
      ensures failed.None? ==>
                && context.Some? && batch == plan.batch && threads == plan.threads
                && plan.context <= capacity <= 2 * plan.context
      ensures
        if !MustRebuild(old(context), old(capacity), old(batch), old(threads), plan) then
          failed == None && context == old(context) && capacity == old(capacity)
        else
          && (failed.None? ==> context == Some(Context(plan.context, plan.batch, plan.threads, adapter, [], false)))
          && (failed.Some? ==> context == None && batch == 0 && failed.value in {NoContext, NoAdapter})
    {
      if !MustRebuild(context, capacity, batch, threads, plan) {
        return None;
      }
      context := None;
      capacity, batch := 0, 0;
      var granted := h.Request();
      if !granted {
        return Some(NoContext);
      }
      if adapter.Some? {
        granted := h.Request();
        if !granted {
          return Some(NoAdapter);
        }
      }
      context := Some(Context(plan.context, plan.batch, plan.threads, adapter, [], false));
      capacity, batch, threads := plan.context, plan.batch, plan.threads;
      failed := None;
    }

    method Decode(chunk: seq<int>, h: Host) returns (ok: bool)
      requires context.Some? && Fits(context.value, chunk)
      modifies this`context, h
      ensures context == if ok then Some(old(context).value.(chunks := old(context).value.chunks + [chunk]))
                         else old(context)
      ensures h.seen == old(h.seen).(tick := h.seen.tick)
      ensures h.AlwaysGrants() ==> ok
    {
      ok := h.Request();
      if ok {
        context := Some(context.value.(chunks := context.value.chunks + [chunk]));
      }
    }

    /** Feeds the prompt in chunks: they partition it in order, each nonempty and at most a batch. */
    method DecodePrompt(tokens: seq<int>, h: Host) returns (stopped: Option<Ended>)
      requires context.Some? && context.value.batch > 0 && context.value.chunks == []
      requires |tokens| <= context.value.capacity
      modifies this`context, h
      ensures context.Some? && context.value == old(context).value.(chunks := context.value.chunks)
      ensures Cells(context.value) <= tokens
      ensures ChunksOk(context.value) && FullBatches(context.value)
      ensures stopped.None? ==> Cells(context.value) == tokens
      ensures stopped.Some? ==> stopped.value in {Stopped, DecodeFailed}
      ensures stopped.None? ==> h.seen.asks == old(h.seen).asks + |context.value.chunks|
      ensures h.seen.hushed == (old(h.seen).hushed || stopped == Some(Stopped))
      ensures h.seen == old(h.seen).(tick := h.seen.tick, asks := h.seen.asks, hushed := h.seen.hushed)
      ensures h.AlwaysListens() ==> stopped != Some(Stopped)
      ensures h.AlwaysGrants() ==> stopped != Some(DecodeFailed)
    {
      hide Cells, ChunksOk, FullBatches, AllFull;
      NothingIn(context.value);
      var offset := 0;
      while offset < |tokens|
        invariant offset <= |tokens|
        invariant context.Some? && context.value == old(context).value.(chunks := context.value.chunks)
        invariant Cells(context.value) == tokens[..offset] && ChunksOk(context.value) && FullBatches(context.value)
        invariant h.seen == old(h.seen).(tick := h.seen.tick, asks := old(h.seen).asks + |context.value.chunks|)
        invariant offset < |tokens| ==> AllFull(context.value)
      {
        var on := h.Ask([]);
        if !on {
          return Some(Stopped);
        }
        var chunk := tokens[offset..offset + Min(|tokens| - offset, context.value.batch)];
        CellsAppend(context.value, chunk);
        FullAppend(context.value, chunk);
        var ok := Decode(chunk, h);
        if !ok {
          return Some(DecodeFailed);
        }
        assert tokens[..offset] + chunk == tokens[..offset + |chunk|];
        offset := offset + |chunk|;
      }
      stopped := None;
    }

    ghost predicate ChunksOk(c: Context) {
      forall k | 0 <= k < |c.chunks| :: 0 < |c.chunks[k]| <= c.batch
    }

    lemma CellsAppend(c: Context, chunk: seq<int>)
      ensures var after := c.(chunks := c.chunks + [chunk]);
              && Cells(after) == Cells(c) + chunk
              && (ChunksOk(c) && 0 < |chunk| <= c.batch ==> ChunksOk(after))
    {
      FlattenAppend(c.chunks, chunk);
    }

    /** The prompt goes in as few calls as the batch allows. */
    ghost predicate FullBatches(c: Context) {
      forall k | 0 <= k < |c.chunks| - 1 :: |c.chunks[k]| == c.batch
    }

    ghost predicate AllFull(c: Context) {
      forall k | 0 <= k < |c.chunks| :: |c.chunks[k]| == c.batch
    }

    lemma FullAppend(c: Context, chunk: seq<int>)
      requires AllFull(c)
      ensures FullBatches(c.(chunks := c.chunks + [chunk]))
      ensures |chunk| == c.batch ==> AllFull(c.(chunks := c.chunks + [chunk]))
      ensures FullBatches(c)
    {
    }

    lemma NothingIn(c: Context)
      requires c.chunks == []
      ensures Cells(c) == [] && ChunksOk(c) && AllFull(c) && FullBatches(c)
    {
    }

    /** What was produced is what the sampler answered from its question `first` on and what the
        listener was told after `heard`, no less and no more; it is less than `max` tokens only if
        the sampler came to the end, or somebody stopped the call. The call ends as soon as the
        listener or the clock says so, and for no other reason as stopped or late. */
    ghost predicate Delivered(h: Host, before: Record, max: nat, ended: Ended, produced: seq<int>)
      reads h
    {
      var first := before.draws;
      && |produced| <= max
      && h.Drew(first, produced) && h.seen.told == before.told + produced
      && first + |produced| <= h.seen.draws <= first + |produced| + 1
      && h.seen.hushed == (before.hushed || ended == Stopped)
      && h.seen.expired == (before.expired || ended == Late)
      && (ended == Completed && |produced| < max ==> h.samples(first + |produced|) == None)
      && (ended == Stopped ==> !h.AlwaysListens())
      && (ended == Late ==> !h.NeverLate())
      && (ended in {NoContext, NoAdapter, DecodeFailed, NoSampler} ==> !h.AlwaysGrants())
    }

    /** Nothing was sampled, so nothing was produced. */
    lemma NotDelivered(h: Host, before: Record, max: nat, ended: Ended)
      requires ended != Completed
      requires h.seen == before.(tick := h.seen.tick, asks := h.seen.asks, checks := h.seen.checks,
                                 hushed := before.hushed || ended == Stopped,
                                 expired := before.expired || ended == Late)
      requires (ended == Stopped ==> !h.AlwaysListens()) && (ended == Late ==> !h.NeverLate())
      requires ended in {NoContext, NoAdapter, DecodeFailed, NoSampler} ==> !h.AlwaysGrants()
      ensures Delivered(h, before, max, ended, [])
    {
    }

    lemma DeliveredSince(h: Host, before: Record, begun: Record, max: nat, ended: Ended, produced: seq<int>)
      requires begun == before.(tick := begun.tick, asks := begun.asks, checks := begun.checks)
      requires Delivered(h, begun, max, ended, produced)
      ensures Delivered(h, before, max, ended, produced)
    {
    }

    /** The record after rounds that all went through. */
    function After(r: Record, tick: nat, produced: seq<int>): Record {
      var n := |produced|;
      Record(tick, r.draws + n, r.asks + 2 * n, r.checks + n, r.told + produced, r.hushed, r.expired)
    }

    /** One more round was begun if the sampler ended the text. */
    function LastLook(produced: seq<int>, max: nat): nat {
      if |produced| < max then 1 else 0
    }

    /** One token: looks at the clock, asks the listener, samples, tells the listener and decodes. */
    method SampleOne(h: Host) returns (stop: Option<Ended>, news: seq<int>)
      requires context.Some? && context.value.batch > 0 && |Cells(context.value)| < context.value.capacity
      modifies this`context, h
      ensures stop == None ==>
                && |news| == 1 && h.Drew(old(h.seen).draws, news)
                && h.seen == After(old(h.seen), h.seen.tick, news)
                && context == Some(old(context).value.(chunks := old(context).value.chunks + [news]))
      ensures stop.Some? ==> |news| <= 1 && context == old(context) && stop.value.WhileSampling()
      ensures stop.Some? ==> Delivered(h, old(h.seen), 1, stop.value, news)
      ensures stop == Some(Completed) ==>
                && news == [] && h.samples(old(h.seen).draws) == None
                && h.seen.asks == old(h.seen).asks + 1 && h.seen.checks == old(h.seen).checks + 1
    {
      hide Cells;
      news := [];
      var inTime := h.Check();
      if !inTime {
        return Some(Late), news;
      }
      var on := h.Ask([]);
      if !on {
        return Some(Stopped), news;
      }
      var token := h.Draw();
      if token.None? {
        return Some(Completed), news;
      }
      news := [token.value];
      on := h.Ask(news);
      if !on {
        return Some(Stopped), news;
      }
      var ok := Decode(news, h);
      if !ok {
        inTime := h.Check();
        return Some(if inTime then DecodeFailed else Late), news;
      }
      stop := None;
    }

    /** Samples up to `max` tokens, telling the listener each one before it is decoded. */
    method Sample(prompt: seq<int>, max: nat, h: Host) returns (ended: Ended, produced: seq<int>)
      requires context.Some? && context.value.batch > 0 && Cells(context.value) == prompt
      requires ChunksOk(context.value)
      requires |prompt| + max <= context.value.capacity
      modifies this`context, h
      ensures context.Some? && context.value == old(context).value.(chunks := context.value.chunks)
      ensures |produced| <= max && ChunksOk(context.value)
      ensures prompt <= Cells(context.value) <= prompt + produced
      ensures ended == Completed ==> Cells(context.value) == prompt + produced
      ensures ended.WhileSampling()
      ensures |prompt + produced| <= |Cells(context.value)| + 1
      ensures Delivered(h, old(h.seen), max, ended, produced)
      ensures ended == Completed ==>
                && |context.value.chunks| == |old(context).value.chunks| + |produced|
                && h.seen.asks == old(h.seen).asks + 2 * |produced| + LastLook(produced, max)
                && h.seen.checks == old(h.seen).checks + |produced| + LastLook(produced, max)
    {
      hide Cells, ChunksOk, Host.Drew;
      assert Cells(context.value) == prompt + [];
      produced := [];
      DrewNothing(h);
      while |produced| < max
        invariant context.Some? && context.value == old(context).value.(chunks := context.value.chunks)
        invariant |produced| <= max && ChunksOk(context.value)
        invariant Cells(context.value) == prompt + produced
        invariant h.Drew(old(h.seen).draws, produced) && h.seen == After(old(h.seen), h.seen.tick, produced)
        invariant |context.value.chunks| == |old(context).value.chunks| + |produced|
        decreases max - |produced|
      {
        ghost var before, so := context.value, h.seen;
        var stop, news := SampleOne(h);
        DrewMore(h, old(h.seen).draws, produced, news);
        assert prompt + (produced + news) == prompt + produced + news;
        produced := produced + news;
        if stop.Some? {
          return stop.value, produced;
        }
        CellsAppend(before, news);
      }
      ended := Completed;
    }

    /** Sets the deadline callback for as long as the guard lives. */
    method Guard(on: bool)
      requires context.Some?
      modifies this`context
      ensures context == Some(old(context).value.(callback := on))
      ensures Cells(context.value) == Cells(old(context).value)
      ensures ChunksOk(old(context).value) ==> ChunksOk(context.value)
    {
      context := Some(context.value.(callback := on));
    }

    /** The calls between setting and clearing the callback. */
    method RunGuarded(tokens: seq<int>, max: nat, h: Host) returns (ended: Ended, produced: seq<int>)
      requires context.Some? && Within(context.value) && |tokens| + max + SPARE <= context.value.capacity
      modifies this`context, h
      ensures context.Some? && context.value == old(context).value.(chunks := context.value.chunks)
      ensures |produced| <= max && ChunksOk(context.value)
      ensures Cells(context.value) <= tokens + produced
      ensures ended == Completed ==> Cells(context.value) == tokens + produced
      ensures ended in {Completed, Stopped, Late, DecodeFailed, NoSampler}
      ensures Delivered(h, old(h.seen), max, ended, produced)
      ensures ended == Completed ==>
                && h.seen.asks == old(h.seen).asks + |context.value.chunks| + |produced| + LastLook(produced, max)
                && h.seen.checks == old(h.seen).checks + 1 + |produced| + LastLook(produced, max)
    {
      hide Delivered, LastLook, ChunksOk, FullBatches, Cells;
      context := Some(context.value.(chunks := []));
      produced := [];
      NothingIn(context.value);
      assert tokens + produced == tokens;
      var stopped := DecodePrompt(tokens, h);
      if stopped == Some(Stopped) {
        NotDelivered(h, old(h.seen), max, Stopped);
        return Stopped, produced;
      }
      var inTime := h.Check();
      if !inTime {
        NotDelivered(h, old(h.seen), max, Late);
        return Late, produced;
      }
      if stopped.Some? {
        NotDelivered(h, old(h.seen), max, DecodeFailed);
        return DecodeFailed, produced;
      }
      var granted := h.Request();
      if !granted {
        NotDelivered(h, old(h.seen), max, NoSampler);
        return NoSampler, produced;
      }
      ghost var begun := h.seen;
      ended, produced := Sample(tokens, max, h);
      DeliveredSince(h, old(h.seen), begun, max, ended, produced);
    }

    /** What comes before the library is used: the limits, the clock and admission. */
    method Prepare(config: Config, promptBytes: nat, tokens: seq<int>, h: Host)
      returns (early: Option<Ended>, plan: Plan)
      requires config.maxTokens > 0
      modifies h
      ensures h.seen == After(old(h.seen), h.seen.tick, []).(checks := h.seen.checks, expired := h.seen.expired)
      ensures h.seen.expired == (old(h.seen).expired || early == Some(Late))
      ensures h.NeverLate() ==> early != Some(Late)
      ensures early.None? ==>
                && RefusedByLimits(config, promptBytes) == None && Admit(config, shape, |tokens|) == Ok(plan)
                && plan.context % BLOCK == 0 && SMALLEST <= plan.context && 0 < plan.batch <= plan.context
                && |tokens| + config.maxTokens + SPARE <= plan.context
                && plan.context * PerToken(shape) <= config.kvLimit
                && h.seen.checks == old(h.seen).checks + 2
      ensures early.Some? ==> early.value.Late? || early.value.Refused?
      ensures early.Some? && early.value.Refused? ==>
                RefusedByLimits(config, promptBytes) == Some(early.value.why)
                || (RefusedByLimits(config, promptBytes) == None
                    && Admit(config, shape, |tokens|) == Err(early.value.why))
    {
      hide Admit, RefusedByLimits, PerToken;
      plan := Plan(0, 0, 0);
      var refusal := RefusedByLimits(config, promptBytes);
      if refusal.Some? {
        return Some(Refused(refusal.value)), plan;
      }
      var inTime := h.Check();
      if !inTime {
        return Some(Late), plan;
      }
      var admitted := Admit(config, shape, |tokens|);
      if admitted.Err? {
        return Some(Refused(admitted.error)), plan;
      }
      plan := admitted.value;
      PlanIsSound(config, shape, promptBytes, |tokens|);
      inTime := h.Check();
      early := if inTime then None else Some(Late);
    }

    /** The call with its plan: a context, and everything else under the deadline callback. */
    method RunPlanned(plan: Plan, tokens: seq<int>, max: nat, h: Host) returns (ended: Ended, produced: seq<int>)
      requires Valid() && |tokens| + max + SPARE <= plan.context
      requires plan.context % BLOCK == 0 && SMALLEST <= plan.context && 0 < plan.batch <= plan.context
      modifies this`context, this`capacity, this`batch, this`threads, h
      ensures Valid() && ended !in {Nothing} && !ended.Refused?
      ensures Delivered(h, old(h.seen), max, ended, produced)
      ensures
        var rebuilt := MustRebuild(old(context), old(capacity), old(batch), old(threads), plan);
        if ended in {NoContext, NoAdapter} then context == None && produced == []
        else
          && context.Some? && plan.context <= capacity <= 2 * plan.context
          && batch == plan.batch && threads == plan.threads
          && capacity == (if rebuilt then plan.context else old(capacity))
          && |tokens + produced| + SPARE <= capacity
          && Cells(context.value) <= tokens + produced && ChunksOk(context.value)
      ensures ended == Completed ==>
                && Cells(context.value) == tokens + produced
                && h.seen.asks == old(h.seen).asks + |context.value.chunks| + |produced| + LastLook(produced, max)
                && h.seen.checks == old(h.seen).checks + 1 + |produced| + LastLook(produced, max)
    {
      hide MustRebuild, ChunksOk, Delivered, FullBatches, Cells, LastLook;
      produced := [];
      var failed := EnsureContext(plan, h);
      if failed.Some? {
        NotDelivered(h, old(h.seen), max, failed.value);
        return failed.value, produced;
      }
      Guard(true);
      ghost var begun := h.seen;
      ended, produced := RunGuarded(tokens, max, h);
      DeliveredSince(h, old(h.seen), begun, max, ended, produced);
      Guard(false);
    }

    /** One generation. A refused call leaves the engine as it was. Otherwise the context has at
        least the admitted size and at most twice that, and a context that was built for the call
        has exactly that size, so that none ever exceeds the largest memory limit of any call.
        However the call ends, prompt and answer stay the spare tokens away from the context's end. */
    method GenerateFormatted(config: Config, promptBytes: nat, tokens: seq<int>, h: Host)
      returns (ended: Ended, produced: seq<int>)
      requires Valid()
      modifies this`context, this`capacity, this`batch, this`threads, h
      ensures Valid()
      ensures |produced| <= config.maxTokens
      ensures config.maxTokens == 0 <==> ended == Nothing
      ensures ended.Nothing? || ended.Refused? ==>
                context == old(context) && capacity == old(capacity) && batch == old(batch) && threads == old(threads)
      ensures ended.Refused? ==>
                RefusedByLimits(config, promptBytes) == Some(ended.why)
                || (RefusedByLimits(config, promptBytes) == None && Admit(config, shape, |tokens|) == Err(ended.why))
      ensures ended in {NoContext, NoAdapter} ==> context == None
      ensures ended in {Completed, Stopped, DecodeFailed, NoSampler, NoContext, NoAdapter} || produced != [] ==>
                RefusedByLimits(config, promptBytes) == None && Admit(config, shape, |tokens|).Ok?
      ensures ended in {Completed, Stopped, DecodeFailed, NoSampler} || produced != [] ==>
                var plan := Admit(config, shape, |tokens|).value;
                && context.Some? && plan.context <= capacity <= 2 * plan.context
                && batch == plan.batch && threads == plan.threads
                && (MustRebuild(old(context), old(capacity), old(batch), old(threads), plan) ==>
                    capacity == plan.context)
                && |tokens + produced| + SPARE <= capacity
                && Cells(context.value) <= tokens + produced && ChunksOk(context.value)
      ensures ended == Completed ==> Cells(context.value) == tokens + produced
      ensures Delivered(h, old(h.seen), config.maxTokens, ended, produced)
      ensures ended == Completed ==>
                var last := LastLook(produced, config.maxTokens);
                && h.seen.asks == old(h.seen).asks + |context.value.chunks| + |produced| + last
                && h.seen.checks == old(h.seen).checks + 3 + |produced| + last
      ensures forall bound: nat :: old(FitsMemory(bound)) && config.kvLimit <= bound ==> FitsMemory(bound)
      ensures ended in {Completed, Stopped, DecodeFailed, NoSampler} || produced != [] ==>
                var plan := Admit(config, shape, |tokens|).value;
                var rebuilt := MustRebuild(old(context), old(capacity), old(batch), old(threads), plan);
                && (!rebuilt ==> capacity == old(capacity))
                && (FitsMemory(config.kvLimit) <==> rebuilt || old(FitsMemory(config.kvLimit)))
      ensures config.maxTokens > 0 && h.Obliging() ==>
                match RefusedByLimits(config, promptBytes)
                case Some(why) => ended == Refused(why)
                case None =>
                  match Admit(config, shape, |tokens|)
                  case Err(why) => ended == Refused(why)
                  case Ok(_) => ended == Completed
    {
      hide Admit, RefusedByLimits, Serves, MustRebuild, PerToken, ChunksOk, Required, Host.Drew, FullBatches, Cells;
      hide LastLook;
      produced := [];
      DrewNothing(h);
      if config.maxTokens == 0 {
        return Nothing, produced;
      }
      var early, plan := Prepare(config, promptBytes, tokens, h);
      if early.Some? {
        return early.value, produced;
      }
      ended, produced := RunPlanned(plan, tokens, config.maxTokens, h);
    }
  }

  lemma DrewNothing(h: Host)
    ensures h.Drew(h.seen.draws, [])
  {
  }

  lemma DrewMore(h: Host, first: nat, tokens: seq<int>, news: seq<int>)
    requires h.Drew(first, tokens) && h.Drew(first + |tokens|, news)
    ensures h.Drew(first, tokens + news)
  {
    forall k | 0 <= k < |tokens + news|
      ensures h.samples(first + k) == Some((tokens + news)[k])
    {
      if k >= |tokens| {
        assert h.samples(first + |tokens| + (k - |tokens|)) == Some(news[k - |tokens|]);
      }
    }
  }

  lemma PlanIsSound(config: Config, shape: Shape, promptBytes: nat, prompt: nat)
    requires RefusedByLimits(config, promptBytes) == None && Admit(config, shape, prompt).Ok?
    ensures
      var plan := Admit(config, shape, prompt).value;
      && plan.context % BLOCK == 0 && SMALLEST <= plan.context && 0 < plan.batch <= plan.context
      && prompt + config.maxTokens + SPARE <= plan.context
      && plan.context * PerToken(shape) <= config.kvLimit
  {
    AdmittedIffServable(config, shape, prompt);
  }

  // ---- Reuse and the memory budget -----------------------------------------------------------

  /** A context is kept exactly if it is as large as planned, at most twice as large, and the batch
      and the threads are the planned ones. */
  lemma KeptIffClose(context: Option<Context>, capacity: nat, batch: nat, threads: nat, plan: Plan)
    requires capacity % BLOCK == 0 && plan.context % BLOCK == 0 && plan.context > 0
    ensures !MustRebuild(context, capacity, batch, threads, plan) <==>
            && context.Some? && plan.context <= capacity <= 2 * plan.context
            && batch == plan.batch && threads == plan.threads
  {
  }

  lemma Twice(n: nat, unit: nat)
    ensures 2 * n * unit == 2 * (n * unit)
  {
  }

  /** A context that is kept for a call is at most twice the planned one, in tokens and in memory.
      Whether it is within the memory limit itself, `GenerateFormatted` says exactly: if it was
      within the limit of this call before the call. */
  lemma ReuseFitsBudget(c: Context, config: Config, shape: Shape, prompt: nat)
    requires Admit(config, shape, prompt).Ok? && config.ctx <= 32768 && c.capacity % BLOCK == 0
    requires !MustRebuild(Some(c), c.capacity, c.batch, c.threads, Admit(config, shape, prompt).value)
    ensures c.capacity <= 2 * Admit(config, shape, prompt).value.context
    ensures c.capacity * PerToken(shape) <= 2 * config.kvLimit
  {
    hide PerToken, Quotient, Admit, Serves, MustRebuild;
    var plan := Admit(config, shape, prompt).value;
    PlannedServes(c, config, shape, prompt);
    Monotone(c.capacity, 2 * plan.context, PerToken(shape));
    Twice(plan.context, PerToken(shape));
  }

  lemma PlannedServes(c: Context, config: Config, shape: Shape, prompt: nat)
    requires Admit(config, shape, prompt).Ok? && config.ctx <= 32768 && c.capacity % BLOCK == 0
    requires !MustRebuild(Some(c), c.capacity, c.batch, c.threads, Admit(config, shape, prompt).value)
    ensures c.capacity <= 2 * Admit(config, shape, prompt).value.context
    ensures Admit(config, shape, prompt).value.context * PerToken(shape) <= config.kvLimit
  {
    hide PerToken, Quotient, Admit, MustRebuild;
    AdmittedIffServable(config, shape, prompt);
    KeptIffClose(Some(c), c.capacity, c.batch, c.threads, Admit(config, shape, prompt).value);
  }

  const SHAPE := Shape(16, 256)
  const EARLIER := Config(100, Some(0.0), Some(1.0), 4, 0, 0, 1000, 32 * 1024 * 1024)
  const LATER := Config(100, Some(0.0), Some(1.0), 4, 0, 0, 1000, 16 * 1024 * 1024)

  lemma BothAdmitted()
    ensures RefusedByLimits(EARLIER, 1900) == None && Admit(EARLIER, SHAPE, 1900) == Ok(Plan(2048, 512, 4))
    ensures RefusedByLimits(LATER, 900) == None && Admit(LATER, SHAPE, 900) == Ok(Plan(1024, 512, 4))
    ensures PerToken(SHAPE) == 16384
  {
    assert PerToken(SHAPE) == 16384;
    assert Budget(EARLIER, SHAPE) == 2048 && Budget(LATER, SHAPE) == 1024;
    assert Rounded(Required(EARLIER, 1900)) == 2048 && Rounded(Required(LATER, 900)) == 1024;
  }

  /** Two calls on one engine, both completed, of which the second asks for half the memory: the
      context built for the first is kept and exceeds the limit of the second. */
  method ReuseCanExceedBudget(h: Host) returns (e: Engine, first: Ended, second: Ended)
    requires h.Obliging()
    modifies h
    ensures fresh(e) && e.Valid() && first == Completed && second == Completed
    ensures e.FitsMemory(EARLIER.kvLimit) && !e.FitsMemory(LATER.kvLimit)
  {
    hide Admit, RefusedByLimits, PerToken;
    BothAdmitted();
    e := new Engine(SHAPE);
    var produced;
    first, produced := e.GenerateFormatted(EARLIER, 1900, seq(1900, i => i), h);
    second, produced := e.GenerateFormatted(LATER, 900, seq(900, i => i), h);
  }
}
