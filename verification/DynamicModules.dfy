/** Relocatable code modules: templates fixed at build time, and their instances in guest memory. */
module DynamicModules {
  import opened AddressSpace
  import opened Wrappers

  // The guest loads, moves and overwrites instances at run time. What its memory currently holds is seen
  // only through validators, modelled as an arbitrary snapshot that may change between any two operations.

  /** A translated function of a template; entry 0 is the null pointer. */
  datatype FunctionRecord = FunctionRecord(offset: Address, entry: nat)

  /** `record` stands for the address of the template record: templates are compared by it. */
  datatype Template = Template(record: nat, canonicalBase: Address, imageSize: Address,
                               canonicalBssBase: Address, bssSize: Address,
                               functions: seq<FunctionRecord>, hasResolver: bool)

  datatype Layout = Layout(imageBase: Address, bssBase: Address)

  /**
   What the validators say about guest memory at one moment: discovery from a probed address, the
   full check of an instance, and the cheap check made at dispatch.
   */
  datatype Guest = Guest(resolve: (Template, Address) -> Option<Layout>,
                         validate: (Template, Address) -> Option<Layout>,
                         validateDispatch: (Template, Address) -> Option<Layout>)

  datatype Instance = Instance(template: Template, base: Address, bssBase: Address, generation: nat)

  datatype Token = Token(template: Template, base: Address, generation: nat)

  type Instances = map<Address, Instance>

  datatype State = State(templates: seq<Template>, instances: Instances, nextGeneration: nat)

  const INITIAL := State([], map[], 1)

  // ---------------------------------------------------------------- ranges

  predicate RangesOverlap(aBase: Address, aSize: Address, bBase: Address, bSize: Address) {
    aBase < bBase + bSize && bBase < aBase + aSize
  }

  predicate InRange(a: int, base: Address, size: Address) { base <= a < base + size }

  /** The overlap test is exact on non-empty ranges: it holds when some address is in both. */
  lemma {:induction false} OverlapMeansSharedAddress(aBase: Address, aSize: Address, bBase: Address, bSize: Address)
    requires aSize > 0 && bSize > 0
    ensures RangesOverlap(aBase, aSize, bBase, bSize) <==>
        exists x: int :: InRange(x, aBase, aSize) && InRange(x, bBase, bSize)
  {
    var x := if aBase < bBase then bBase else aBase;
    if RangesOverlap(aBase, aSize, bBase, bSize) {
      assert InRange(x, aBase, aSize) && InRange(x, bBase, bSize);
    }
  }

  predicate SortedFunctions(fs: seq<FunctionRecord>, imageSize: Address) {
    forall i :: 0 <= i < |fs| ==>
      fs[i].entry != 0 && fs[i].offset < imageSize && (i > 0 ==> fs[i-1].offset < fs[i].offset)
  }

  predicate ValidTemplate(t: Template) {
    && t.canonicalBase != 0 && t.imageSize != 0 && t.functions != [] && t.hasResolver
    && (t.bssSize == 0 <==> t.canonicalBssBase == 0)
    && t.canonicalBase + t.imageSize < ADDRESSES
    && (t.bssSize != 0 ==>
          && t.canonicalBssBase + t.bssSize < ADDRESSES
          && !RangesOverlap(t.canonicalBase, t.imageSize, t.canonicalBssBase, t.bssSize))
    && SortedFunctions(t.functions, t.imageSize)
  }

  // ---------------------------------------------------------------- the operations, on values

  function Register(s: State, t: Template): State {
    if ValidTemplate(t) && t !in s.templates then s.(templates := s.templates + [t]) else s
  }

  /** The layout a validator reports is the one the instance was attached with. */
  predicate StillThere(i: Instance, seen: Option<Layout>) {
    seen == Some(Layout(i.base, i.bssBase))
  }

  function Pruned(instances: Instances, g: Guest): Instances {
    map b | b in instances
        && StillThere(instances[b], g.validate(instances[b].template, instances[b].base)) :: instances[b]
  }

  /** The layout fits the template: representable one-past ends, image and BSS apart. */
  predicate Fits(t: Template, base: Address, layout: Layout) {
    && layout.imageBase == base
    && (t.bssSize != 0 ==> layout.bssBase != 0)
    && base + t.imageSize < ADDRESSES
    && (t.bssSize != 0 ==>
          && layout.bssBase + t.bssSize < ADDRESSES
          && !RangesOverlap(base, t.imageSize, layout.bssBase, t.bssSize))
  }

  predicate Conflict(t: Template, base: Address, bssBase: Address, other: Instance) {
    || RangesOverlap(base, t.imageSize, other.base, other.template.imageSize)
    || (other.template.bssSize != 0 && RangesOverlap(base, t.imageSize, other.bssBase, other.template.bssSize))
    || (t.bssSize != 0 && RangesOverlap(bssBase, t.bssSize, other.base, other.template.imageSize))
    || (t.bssSize != 0 && other.template.bssSize != 0 &&
        RangesOverlap(bssBase, t.bssSize, other.bssBase, other.template.bssSize))
  }

  predicate ConflictFree(t: Template, base: Address, bssBase: Address, instances: Instances, replaceSameBase: bool) {
    forall b :: b in instances && !(b == base && replaceSameBase) ==> !Conflict(t, base, bssBase, instances[b])
  }

  /** AttachInstanceLocked: checks the layout, drops stale instances, then admits or refuses. */
  function Attach(s: State, g: Guest, t: Template, base: Address, replaceSameBase: bool): (State, Option<Token>) {
    var layout := g.validate(t, base);
    if t !in s.templates || layout.None? || !Fits(t, base, layout.value) then (s, None)
    else
      var kept := Pruned(s.instances, g);
      if !ConflictFree(t, base, layout.value.bssBase, kept, replaceSameBase) || (!replaceSameBase && base in kept)
      then (s.(instances := kept), None)
      else
        (s.(instances := kept[base := Instance(t, base, layout.value.bssBase, s.nextGeneration)],
            nextGeneration := s.nextGeneration + 1),
         Some(Token(t, base, s.nextGeneration)))
  }

  function Detach(s: State, token: Token): (State, bool) {
    if token.generation != 0 && token.base in s.instances && s.instances[token.base].template == token.template &&
       s.instances[token.base].generation == token.generation
    then (s.(instances := s.instances - {token.base}), true)
    else (s, false)
  }

  /** The image base the template claims for the probed address; 0 when it claims none. */
  function Claim(g: Guest, t: Template, candidate: Address): Address {
    match g.resolve(t, candidate)
    case Some(layout) => layout.imageBase
    case None => 0
  }

  /** The templates that claim the probed address, in registration order. */
  function Claimants(ts: seq<Template>, g: Guest, candidate: Address): seq<Template> {
    if ts == [] then []
    else
      var n := |ts| - 1;
      Claimants(ts[..n], g, candidate) + (if Claim(g, ts[n], candidate) != 0 then [ts[n]] else [])
  }

  /** A publication attaches when exactly one template claims it; two claims retire both claimed bases. */
  function Publish(s: State, g: Guest, candidate: Address): (State, bool) {
    var claimants := Claimants(s.templates, g, candidate);
    if |claimants| == 0 then (s, false)
    else if |claimants| == 1 then
      var (s', token) := Attach(s, g, claimants[0], Claim(g, claimants[0], candidate), true);
      (s', token.Some?)
    else
      (s.(instances := s.instances - {Claim(g, claimants[0], candidate), Claim(g, claimants[1], candidate)}), false)
  }

  /** First function whose offset is not below the one asked for, as the library lower bound. */
  function FirstNotBelow(fs: seq<FunctionRecord>, offset: int): (k: nat)
    ensures k <= |fs|
  {
    if fs == [] || fs[0].offset >= offset then 0 else 1 + FirstNotBelow(fs[1..], offset)
  }

  function FindFunction(t: Template, offset: int): Option<FunctionRecord> {
    var k := FirstNotBelow(t.functions, offset);
    if k < |t.functions| && t.functions[k].offset == offset then Some(t.functions[k]) else None
  }

  lemma {:induction false} FirstNotBelowSplits(fs: seq<FunctionRecord>, imageSize: Address, offset: int, i: nat)
    requires SortedFunctions(fs, imageSize) && i < |fs|
    ensures i < FirstNotBelow(fs, offset) <==> fs[i].offset < offset
  {
    if i > 0 {
      assert forall k :: 0 <= k < |fs[1..]| ==> fs[1..][k] == fs[k+1];
      FirstNotBelowSplits(fs[1..], imageSize, offset, i - 1);
      FirstNotBelowSplits(fs, imageSize, offset, i - 1);
    }
  }

  /** In a registered template a function is found exactly when one starts at the offset. */
  lemma {:induction false} FindFunctionIsExact(t: Template, offset: int)
    requires ValidTemplate(t)
    ensures forall f :: FindFunction(t, offset) == Some(f) <==> f in t.functions && f.offset == offset
  {
    forall f | f in t.functions && f.offset == offset ensures FindFunction(t, offset) == Some(f) {
      var i :| 0 <= i < |t.functions| && t.functions[i] == f;
      FirstNotBelowSplits(t.functions, t.imageSize, offset, i);
      var k := FirstNotBelow(t.functions, offset);
      FirstNotBelowSplits(t.functions, t.imageSize, offset, k);
      SortedStrictly(t.functions, t.imageSize, k, i);
    }
  }

  lemma {:induction false} SortedStrictly(fs: seq<FunctionRecord>, imageSize: Address, i: nat, j: nat)
    requires SortedFunctions(fs, imageSize) && i <= j < |fs|
    ensures i < j ==> fs[i].offset < fs[j].offset
  {
    if i + 1 < j {
      SortedStrictly(fs, imageSize, i, j - 1);
    }
  }

  // ---------------------------------------------------------------- resolving a call target

  datatype Resolved = Resolved(template: Template, code: FunctionRecord, base: Address, bssBase: Address,
                               generation: nat)

  predicate ImageHolds(i: Instance, target: Address) { InRange(target, i.base, i.template.imageSize) }

  predicate DispatchValid(i: Instance, g: Guest) { StillThere(i, g.validateDispatch(i.template, i.base)) }

  /** Resolving a target inside instance b: a stale instance is dropped, a live one looks the offset up. */
  function ResolveIn(s: State, g: Guest, target: Address, b: Address): (State, Option<Resolved>)
    requires b in s.instances
  {
    var i := s.instances[b];
    if !DispatchValid(i, g) then (s.(instances := s.instances - {b}), None)
    else match FindFunction(i.template, target - i.base)
      case Some(f) => (s, Some(Resolved(i.template, f, i.base, i.bssBase, i.generation)))
      case None => (s, None)
  }

  /** Resolution of a target by the instance whose image holds it, if there is one. */
  ghost function Resolve(s: State, g: Guest, target: Address): (State, Option<Resolved>) {
    if b :| b in s.instances && ImageHolds(s.instances[b], target) then ResolveIn(s, g, target, b) else (s, None)
  }

  /** The module fields of a CPU context while a module function runs. */
  datatype Context = Context(template: Option<Template>, runtimeBase: Address, canonicalBase: Address,
                             imageSize: Address,
                             runtimeBssBase: Address, canonicalBssBase: Address, bssSize: Address, generation: nat)

  /** The context a function of a resolved instance runs in. */
  function Entered(r: Resolved): Context {
    Context(Some(r.template), r.base, r.template.canonicalBase, r.template.imageSize,
            r.bssBase, r.template.canonicalBssBase, r.template.bssSize, r.generation)
  }

  /** A call between functions of the running module: refused unless that very instance is still attached. */
  function ResolveCurrent(s: State, g: Guest, cpu: Context, offset: Address): Option<Resolved> {
    if cpu.template.None? || cpu.generation == 0 || cpu.runtimeBase !in s.instances then None
    else
      var i, t := s.instances[cpu.runtimeBase], cpu.template.value;
      if i.template != t || i.generation != cpu.generation || i.bssBase != cpu.runtimeBssBase ||
         g.validateDispatch(t, cpu.runtimeBase) != Some(Layout(cpu.runtimeBase, cpu.runtimeBssBase))
      then None
      else match FindFunction(t, offset)
        case Some(f) => Some(Resolved(t, f, cpu.runtimeBase, cpu.runtimeBssBase, cpu.generation))
        case None => None
  }

  // ---------------------------------------------------------------- runs

  datatype Operation =
    | RegisterOp(template: Template)
    | AttachOp(guest: Guest, template: Template, base: Address)
    | PublishOp(guest: Guest, candidate: Address)
    | DetachOp(token: Token)
    | ResolveOp(guest: Guest, target: Address)

  ghost function Step(s: State, op: Operation): State {
    match op
    case RegisterOp(t) => Register(s, t)
    case AttachOp(g, t, base) => Attach(s, g, t, base, false).0
    case PublishOp(g, candidate) => Publish(s, g, candidate).0
    case DetachOp(token) => Detach(s, token).0
    case ResolveOp(g, target) => Resolve(s, g, target).0
  }

  ghost function Run(s: State, ops: seq<Operation>): State {
    if ops == [] then s else Step(Run(s, ops[..|ops|-1]), ops[|ops|-1])
  }

  /** An instance as attachment admits it. */
  ghost predicate Admitted(s: State, b: Address)
    requires b in s.instances
  {
    var i := s.instances[b];
    && i.base == b && i.template in s.templates && ValidTemplate(i.template)
    && Fits(i.template, b, Layout(b, i.bssBase))
    && 0 < i.generation < s.nextGeneration
  }

  ghost predicate Apart(i: Instance, j: Instance) {
    !Conflict(i.template, i.base, i.bssBase, j) && i.generation != j.generation
  }

  ghost predicate Sound(s: State) {
    && s.nextGeneration > 0
    && (forall t :: t in s.templates ==> ValidTemplate(t))
    && (forall i, j :: 0 <= i < j < |s.templates| ==> s.templates[i] != s.templates[j])
    && (forall b :: b in s.instances ==> Admitted(s, b))
    && (forall b, c :: b in s.instances && c in s.instances && b != c ==> Apart(s.instances[b], s.instances[c]))
  }

  lemma {:induction false} FewerInstancesStaySound(s: State, kept: Instances)
    requires Sound(s) && forall b :: b in kept ==> b in s.instances && kept[b] == s.instances[b]
    ensures Sound(s.(instances := kept))
  {
    var s' := s.(instances := kept);
    forall b | b in kept ensures Admitted(s', b) {
      assert Admitted(s, b);
    }
  }

  lemma {:induction false} ConflictIsSymmetric(i: Instance, j: Instance)
    ensures Conflict(i.template, i.base, i.bssBase, j) <==> Conflict(j.template, j.base, j.bssBase, i)
  {
  }

  lemma {:induction false} AttachKeepsSound(s: State, g: Guest, t: Template, base: Address, replaceSameBase: bool)
    requires Sound(s)
    ensures Sound(Attach(s, g, t, base, replaceSameBase).0)
  {
    var (s', token) := Attach(s, g, t, base, replaceSameBase);
    var kept := Pruned(s.instances, g);
    FewerInstancesStaySound(s, kept);
    if token.Some? {
      var added := s'.instances[base];
      forall b | b in s'.instances ensures Admitted(s', b) {
        if b != base {
          assert Admitted(s, b);
        }
      }
      forall b | b in s'.instances && b != base ensures Apart(s'.instances[b], added) && Apart(added, s'.instances[b]) {
        assert Admitted(s, b);
        ConflictIsSymmetric(added, s'.instances[b]);
      }
    }
  }

  lemma {:induction false} ClaimantsAreTemplates(ts: seq<Template>, g: Guest, candidate: Address)
    ensures forall t :: t in Claimants(ts, g, candidate) <==> t in ts && Claim(g, t, candidate) != 0
    ensures (forall i, j :: 0 <= i < j < |ts| ==> ts[i] != ts[j]) ==>
              forall i, j :: 0 <= i < j < |Claimants(ts, g, candidate)| ==>
                Claimants(ts, g, candidate)[i] != Claimants(ts, g, candidate)[j]
  {
    if ts != [] {
      var n := |ts| - 1;
      ClaimantsAreTemplates(ts[..n], g, candidate);
      assert ts == ts[..n] + [ts[n]];
    }
  }

  lemma {:induction false} StepKeepsSound(s: State, op: Operation)
    requires Sound(s)
    ensures Sound(Step(s, op)) && Step(s, op).nextGeneration >= s.nextGeneration
  {
    hide Apart, ValidTemplate;
    match op
    case RegisterOp(t) =>
      var s' := Register(s, t);
      forall b | b in s'.instances ensures Admitted(s', b) {
        assert Admitted(s, b);
      }
    case AttachOp(g, t, base) => AttachKeepsSound(s, g, t, base, false);
    case PublishOp(g, candidate) =>
      var claimants := Claimants(s.templates, g, candidate);
      if |claimants| == 1 {
        AttachKeepsSound(s, g, claimants[0], Claim(g, claimants[0], candidate), true);
      } else {
        FewerInstancesStaySound(s, Publish(s, g, candidate).0.instances);
      }
    case DetachOp(token) => FewerInstancesStaySound(s, Detach(s, token).0.instances);
    case ResolveOp(g, target) => FewerInstancesStaySound(s, Resolve(s, g, target).0.instances);
  }

  lemma {:induction false} RunKeepsSound(s: State, ops: seq<Operation>)
    requires Sound(s)
    ensures Sound(Run(s, ops)) && Run(s, ops).nextGeneration >= s.nextGeneration
  {
    if ops != [] {
      RunKeepsSound(s, ops[..|ops|-1]);
      StepKeepsSound(Run(s, ops[..|ops|-1]), ops[|ops|-1]);
    }
  }

  // ---------------------------------------------------------------- what every run keeps

  predicate InImage(i: Instance, a: int) { InRange(a, i.base, i.template.imageSize) }

  predicate InBss(i: Instance, a: int) { InRange(a, i.bssBase, i.template.bssSize) }

  /**
   Over every run of registrations, attachments, publications, detachments and resolutions, with
   validators that answer anything at any time: no guest address belongs to two live instances, or
   to both the image and the BSS of one, and every range has a representable one-past end.
   */
  lemma {:induction false} RangesAreDisjointInEveryRun(ops: seq<Operation>, a: int, b: Address, c: Address)
    requires b in Run(INITIAL, ops).instances && c in Run(INITIAL, ops).instances
    ensures var i, j := Run(INITIAL, ops).instances[b], Run(INITIAL, ops).instances[c];
            && ((InImage(i, a) || InBss(i, a)) && (InImage(j, a) || InBss(j, a)) ==> b == c)
            && !(InImage(i, a) && InBss(i, a))
            && ((InImage(i, a) || InBss(i, a)) ==> a + 1 < ADDRESSES)
  {
    RunKeepsSound(INITIAL, ops);
    var s := Run(INITIAL, ops);
    assert Admitted(s, b) && Admitted(s, c);
    if b != c {
      assert Apart(s.instances[b], s.instances[c]);
    }
  }

  lemma {:induction false} ImagesAreApart(s: State, b: Address, c: Address, target: Address)
    requires Sound(s) && b in s.instances && c in s.instances && b != c
    ensures !(ImageHolds(s.instances[b], target) && ImageHolds(s.instances[c], target))
  {
    assert Admitted(s, b) && Admitted(s, c);
    assert Apart(s.instances[b], s.instances[c]);
  }

  /** Resolution is a matter of the one instance whose image holds the target. */
  lemma {:induction false} ResolveAt(s: State, g: Guest, target: Address, b: Address)
    requires Sound(s) && b in s.instances && ImageHolds(s.instances[b], target)
    ensures Resolve(s, g, target) == ResolveIn(s, g, target, b)
    ensures forall c :: c in s.instances && ImageHolds(s.instances[c], target) ==> c == b
  {
    hide Sound, ResolveIn, ImageHolds;
    forall c | c in s.instances && ImageHolds(s.instances[c], target) ensures c == b {
      if c != b {
        ImagesAreApart(s, b, c, target);
      }
    }
  }

  /** Every instance checked up front by the dispatch validator, the stale ones dropped. */
  function AllChecked(s: State, g: Guest): State {
    s.(instances := map b | b in s.instances && DispatchValid(s.instances[b], g) :: s.instances[b])
  }

  /** Checking only the instance that holds the target gives the answer of checking every instance first. */
  lemma {:induction false} LazyCheckIsEnough(s: State, g: Guest, target: Address)
    requires Sound(s)
    ensures Resolve(s, g, target).1 == Resolve(AllChecked(s, g), g, target).1
  {
    hide Sound, ResolveIn, ImageHolds, DispatchValid;
    var s' := AllChecked(s, g);
    FewerInstancesStaySound(s, s'.instances);
    if b :| b in s.instances && ImageHolds(s.instances[b], target) {
      ResolveAt(s, g, target, b);
      if b in s'.instances {
        ResolveAt(s', g, target, b);
      }
      ResolveInChecked(s, g, target, b);
    }
  }

  lemma {:induction false} ResolveInChecked(s: State, g: Guest, target: Address, b: Address)
    requires b in s.instances
    ensures b !in AllChecked(s, g).instances ==> ResolveIn(s, g, target, b).1 == None
    ensures b in AllChecked(s, g).instances ==>
              ResolveIn(s, g, target, b).1 == ResolveIn(AllChecked(s, g), g, target, b).1
  {
  }

  // ---------------------------------------------------------------- generations

  /** No live instance carries this generation at this base, and it has already been issued. */
  predicate Retired(s: State, base: Address, generation: nat) {
    generation < s.nextGeneration && (base in s.instances ==> s.instances[base].generation != generation)
  }

  lemma {:induction false} StepKeepsRetired(s: State, op: Operation, base: Address, generation: nat)
    requires Sound(s) && Retired(s, base, generation)
    ensures Retired(Step(s, op), base, generation)
  {
    hide Sound, ValidTemplate, Fits, ConflictFree, FindFunction, StillThere;
    StepKeepsSound(s, op);
  }

  lemma {:induction false} RunKeepsRetired(s: State, ops: seq<Operation>, base: Address, generation: nat)
    requires Sound(s) && Retired(s, base, generation)
    ensures Sound(Run(s, ops)) && Retired(Run(s, ops), base, generation)
  {
    RunKeepsSound(s, ops);
    if ops != [] {
      RunKeepsRetired(s, ops[..|ops|-1], base, generation);
      StepKeepsRetired(Run(s, ops[..|ops|-1]), ops[|ops|-1], base, generation);
    }
  }

  /**
   Generations are never reissued: once a base has been published again, every token and every
   running context of an older generation at that base is refused for ever, whatever the
   validators say and whatever is attached there later.
   */
  lemma {:induction false} RepublicationRefusesOlderGenerations(s: State, g: Guest, candidate: Address,
      ops: seq<Operation>, token: Token, cpu: Context, later: Guest, offset: Address)
    requires Sound(s) && Publish(s, g, candidate).1
    requires var claimant := Claimants(s.templates, g, candidate)[0];
             token.base == cpu.runtimeBase == Claim(g, claimant, candidate)
    requires token.generation < s.nextGeneration && cpu.generation < s.nextGeneration
    ensures var s' := Run(Publish(s, g, candidate).0, ops);
            && Detach(s', token) == (s', false)
            && ResolveCurrent(s', later, cpu, offset) == None
  {
    var published := Publish(s, g, candidate).0;
    StepKeepsSound(s, PublishOp(g, candidate));
    RunKeepsRetired(published, ops, token.base, token.generation);
    RunKeepsRetired(published, ops, cpu.runtimeBase, cpu.generation);
  }

  /** A context stays usable exactly as long as its instance stays attached and valid. */
  lemma {:induction false} EnteredContextIsCurrent(s: State, g: Guest, target: Address, later: State, guest: Guest,
                                                   offset: Address)
    requires Sound(s) && Sound(later) && Resolve(s, g, target).1.Some?
    ensures var r := Resolve(s, g, target).1.value;
            ResolveCurrent(later, guest, Entered(r), offset) ==
              if r.base in later.instances
                  && later.instances[r.base] == Instance(r.template, r.base, r.bssBase, r.generation) &&
                 DispatchValid(later.instances[r.base], guest) && FindFunction(r.template, offset).Some?
              then Some(Resolved(r.template, FindFunction(r.template, offset).value, r.base, r.bssBase, r.generation))
              else None
  {
    var b :| b in s.instances && ImageHolds(s.instances[b], target)
        && Resolve(s, g, target) == ResolveIn(s, g, target, b);
    assert Admitted(s, b);
    var r := Resolve(s, g, target).1.value;
    if r.base in later.instances {
      assert Admitted(later, r.base);
    }
  }

  /** The instance the context was entered with is the one attached at its base. */
  predicate RunsIn(s: State, cpu: Context) {
    && cpu.template.Some? && cpu.runtimeBase in s.instances
    && s.instances[cpu.runtimeBase] == Instance(cpu.template.value, cpu.runtimeBase, cpu.runtimeBssBase, cpu.generation)
  }

  lemma {:induction false} CurrentMeans(s: State, g: Guest, cpu: Context, offset: Address)
    requires Sound(s)
    ensures var resolved := ResolveCurrent(s, g, cpu, offset);
            && (resolved.Some? <==>
                  && RunsIn(s, cpu) && DispatchValid(s.instances[cpu.runtimeBase], g)
                  && exists f :: f in cpu.template.value.functions && f.offset == offset)
            && (resolved.Some? ==>
                  var r := resolved.value;
                  && r.code in cpu.template.value.functions && r.code.offset == offset
                  && Instance(r.template, r.base, r.bssBase, r.generation) == s.instances[cpu.runtimeBase])
  {
    hide FindFunction;
    if cpu.template.Some? && cpu.runtimeBase in s.instances
        && s.instances[cpu.runtimeBase].template == cpu.template.value {
      assert Admitted(s, cpu.runtimeBase);
      FindFunctionIsExact(cpu.template.value, offset);
    }
  }

  lemma {:induction false} TokenNamesItsInstance(s: State, token: Token)
    requires Sound(s)
    ensures Detach(s, token).1 <==> exists i :: i in s.instances.Values &&
                                      i.base == token.base && i.template == token.template
                                          && i.generation == token.generation
    ensures Detach(s, token).1 ==> Retired(Detach(s, token).0, token.base, token.generation)
  {
    forall b | b in s.instances ensures s.instances[b].base == b && 0 < s.instances[b].generation < s.nextGeneration {
      assert Admitted(s, b);
    }
    if Detach(s, token).1 {
      assert s.instances[token.base] in s.instances.Values;
    }
  }

  /** A token detaches once: after it has, it is refused for ever, and so is every context of its generation. */
  lemma {:induction false} DetachedTokenIsSpent(s: State, token: Token, ops: seq<Operation>, g: Guest, cpu: Context,
                                                offset: Address)
    requires Sound(s) && Detach(s, token).1 && cpu.runtimeBase == token.base && cpu.generation == token.generation
    ensures var later := Run(Detach(s, token).0, ops);
            Detach(later, token) == (later, false) && ResolveCurrent(later, g, cpu, offset) == None
  {
    TokenNamesItsInstance(s, token);
    StepKeepsSound(s, DetachOp(token));
    RunKeepsRetired(Detach(s, token).0, ops, token.base, token.generation);
  }

  // ---------------------------------------------------------------- publication and registration order

  /** A publication attaches only if exactly one registered template claims the probed address. */
  lemma {:induction false} PublishNeedsOneClaimant(s: State, g: Guest, candidate: Address)
    requires Sound(s) && Publish(s, g, candidate).1
    ensures exists t :: t in s.templates && Claim(g, t, candidate) != 0 &&
                        forall u :: u in s.templates && Claim(g, u, candidate) != 0 ==> u == t
  {
    ClaimantsAreTemplates(s.templates, g, candidate);
    var claimants := Claimants(s.templates, g, candidate);
    assert claimants[0] in claimants;
    forall u | u in s.templates && Claim(g, u, candidate) != 0 ensures u == claimants[0] {
      assert u in claimants;
    }
  }

  /** Both states hold the same templates, instances and generation; only the registration order may differ. */
  ghost predicate SameUpToOrder(s: State, r: State) {
    && (forall t :: t in s.templates <==> t in r.templates)
    && s.instances == r.instances && s.nextGeneration == r.nextGeneration
  }

  lemma {:induction false} DistinctCardinality<T>(xs: seq<T>)
    requires forall i, j :: 0 <= i < j < |xs| ==> xs[i] != xs[j]
    ensures |set x | x in xs| == |xs|
  {
    if xs != [] {
      var n := |xs| - 1;
      DistinctCardinality(xs[..n]);
      assert (set x | x in xs) == (set x | x in xs[..n]) + {xs[n]};
    }
  }

  /** Every live base that is claimed is claimed by all claimants except at most one. */
  ghost predicate AtMostOneDissents(s: State, g: Guest, candidate: Address) {
    forall t, u, v :: t in s.templates && u in s.templates && v in s.templates && u != v
                      && Claim(g, t, candidate) in s.instances
                      && Claim(g, t, candidate) != 0 && Claim(g, u, candidate) != 0 && Claim(g, v, candidate) != 0 ==>
                      Claim(g, t, candidate) in {Claim(g, u, candidate), Claim(g, v, candidate)}
  }

  /**
   The outcome of a publication does not depend on the registration order, and neither do the
   instances it leaves as long as at most one claimant dissents from any live claimed base.
   */
  lemma {:induction false} PublishIsOrderIndependent(s: State, r: State, g: Guest, candidate: Address)
    requires Sound(s) && Sound(r) && SameUpToOrder(s, r)
    ensures Publish(s, g, candidate).1 == Publish(r, g, candidate).1
    ensures AtMostOneDissents(s, g, candidate) ==>
              SameUpToOrder(Publish(s, g, candidate).0, Publish(r, g, candidate).0)
  {
    hide Sound, Claim, Claimants, Attach;
    var xs, ys := Claimants(s.templates, g, candidate), Claimants(r.templates, g, candidate);
    SameClaimants(s, r, g, candidate);
    if |xs| == 1 {
      assert xs[0] in xs && xs[0] in ys && xs[0] == ys[0];
      AttachIgnoresOrder(s, r, g, xs[0], Claim(g, xs[0], candidate));
    } else if |xs| >= 2 && AtMostOneDissents(s, g, candidate) {
      assert xs[0] in xs && xs[1] in xs && ys[0] in ys && ys[1] in ys;
      assert forall t :: t in xs <==> t in s.templates && Claim(g, t, candidate) != 0;
      assert Publish(s, g, candidate).0.instances == Publish(r, g, candidate).0.instances;
    }
  }

  lemma {:induction false} AttachIgnoresOrder(s: State, r: State, g: Guest, t: Template, base: Address)
    requires SameUpToOrder(s, r)
    ensures Attach(s, g, t, base, true).1 == Attach(r, g, t, base, true).1
    ensures SameUpToOrder(Attach(s, g, t, base, true).0, Attach(r, g, t, base, true).0)
  {
    hide Fits, ConflictFree, StillThere;
  }

  lemma {:induction false} SameClaimants(s: State, r: State, g: Guest, candidate: Address)
    requires Sound(s) && Sound(r) && SameUpToOrder(s, r)
    ensures var xs, ys := Claimants(s.templates, g, candidate), Claimants(r.templates, g, candidate);
            && |xs| == |ys| && (forall x :: x in xs <==> x in ys)
            && (forall x :: x in xs <==> x in s.templates && Claim(g, x, candidate) != 0)
            && (|xs| >= 2 ==> xs[0] != xs[1] && ys[0] != ys[1])
  {
    var xs, ys := Claimants(s.templates, g, candidate), Claimants(r.templates, g, candidate);
    ClaimantsAreTemplates(s.templates, g, candidate);
    ClaimantsAreTemplates(r.templates, g, candidate);
    DistinctCardinality(xs);
    DistinctCardinality(ys);
    assert (set x | x in xs) == (set x | x in ys);
  }

  lemma {:induction false} ClaimantsOfConcatenation(ts: seq<Template>, us: seq<Template>, g: Guest, candidate: Address)
    ensures Claimants(ts + us, g, candidate) == Claimants(ts, g, candidate) + Claimants(us, g, candidate)
  {
    hide Claim;
    if us == [] {
      assert ts + us == ts;
    } else {
      var n := |us| - 1;
      assert (ts + us)[..|ts + us| - 1] == ts + us[..n];
      ClaimantsOfConcatenation(ts, us[..n], g, candidate);
    }
  }

  /** The same registry with template i registered first. */
  function RegisteredFirst(s: State, i: nat): State
    requires i < |s.templates|
  {
    s.(templates := [s.templates[i]] + s.templates[..i] + s.templates[i+1..])
  }

  lemma {:induction false} OrderMayChange(s: State, i: nat)
    requires Sound(s) && i < |s.templates|
    ensures Sound(RegisteredFirst(s, i)) && SameUpToOrder(s, RegisteredFirst(s, i))
  {
    hide ValidTemplate, Apart;
    var ts, us := s.templates, RegisteredFirst(s, i).templates;
    assert ts == ts[..i] + [ts[i]] + ts[i+1..];
    forall b | b in s.instances ensures Admitted(RegisteredFirst(s, i), b) {
      assert Admitted(s, b);
    }
  }

  lemma {:induction false} FirstRegisteredClaimsFirst(s: State, i: nat, g: Guest, candidate: Address)
    requires i < |s.templates| && Claim(g, s.templates[i], candidate) != 0
    ensures Claimants(RegisteredFirst(s, i).templates, g, candidate) ==
            [s.templates[i]] + Claimants(s.templates[..i] + s.templates[i+1..], g, candidate)
  {
    hide Claim;
    var t := s.templates[i];
    assert RegisteredFirst(s, i).templates == [t] + (s.templates[..i] + s.templates[i+1..]);
    ClaimantsOfConcatenation([t], s.templates[..i] + s.templates[i+1..], g, candidate);
    assert [t][..0] == [] && Claimants([t], g, candidate) == [t];
  }

  /** In an order that registers the claimant of a live base first, two claimants retire that base. */
  lemma {:induction false} FirstClaimIsRetired(s: State, g: Guest, candidate: Address, t: Template, u: Template)
    returns (r: State)
    requires Sound(s) && t in s.templates && u in s.templates && u != t
    requires Claim(g, t, candidate) != 0 && Claim(g, u, candidate) != 0
    ensures Sound(r) && SameUpToOrder(s, r) && Claim(g, t, candidate) !in Publish(r, g, candidate).0.instances
  {
    hide Sound, Claim, Claimants;
    var i :| 0 <= i < |s.templates| && s.templates[i] == t;
    r := RegisteredFirst(s, i);
    OrderMayChange(s, i);
    FirstRegisteredClaimsFirst(s, i, g, candidate);
    SameClaimants(s, r, g, candidate);
    assert u in Claimants(r.templates, g, candidate);
  }

  /** In an order that registers two dissenters first, a live base survives. */
  lemma {:induction false} DissentersLeaveTheBase(s: State, g: Guest, candidate: Address, u: Template, v: Template,
                                                  base: Address)
    returns (r: State)
    requires Sound(s) && u in s.templates && v in s.templates && u != v && base in s.instances
    requires Claim(g, u, candidate) != 0 && Claim(g, v, candidate) != 0
    requires base !in {Claim(g, u, candidate), Claim(g, v, candidate)}
    ensures Sound(r) && SameUpToOrder(s, r) && base in Publish(r, g, candidate).0.instances
  {
    hide Sound, Claim, Claimants;
    var k :| 0 <= k < |s.templates| && s.templates[k] == v;
    var late := RegisteredFirst(s, k);
    OrderMayChange(s, k);
    var j :| 0 <= j < |late.templates| && late.templates[j] == u;
    r := RegisteredFirst(late, j);
    OrderMayChange(late, j);
    assert SameUpToOrder(s, r);
    FirstRegisteredClaimsFirst(late, j, g, candidate);
    var rest := late.templates[..j] + late.templates[j+1..];
    assert j > 0 && rest == [v] + rest[1..];
    ClaimsItself(v, g, candidate);
    ClaimantsOfConcatenation([v], rest[1..], g, candidate);
    var claimants := Claimants(r.templates, g, candidate);
    assert claimants[0] == u && claimants[1] == v;
  }

  lemma {:induction false} ClaimsItself(t: Template, g: Guest, candidate: Address)
    requires Claim(g, t, candidate) != 0
    ensures Claimants([t], g, candidate) == [t]
  {
    assert [t][..0] == [];
  }

  /**
   The instances a publication leaves are the same for every registration order if and only if at most
   one claimant dissents from any live claimed base. Only the first two claimed bases are retired.
   */
  lemma {:induction false} OrderIsInvisibleExactly(s: State, g: Guest, candidate: Address)
    requires Sound(s)
    ensures AtMostOneDissents(s, g, candidate) <==>
            forall r :: Sound(r) && SameUpToOrder(s, r) ==>
                          SameUpToOrder(Publish(s, g, candidate).0, Publish(r, g, candidate).0)
  {
    hide Sound, Claim, Publish;
    if AtMostOneDissents(s, g, candidate) {
      forall r | Sound(r) && SameUpToOrder(s, r)
        ensures SameUpToOrder(Publish(s, g, candidate).0, Publish(r, g, candidate).0)
      {
        PublishIsOrderIndependent(s, r, g, candidate);
      }
    } else {
      var t, u, v :| t in s.templates && u in s.templates && v in s.templates && u != v
                     && Claim(g, t, candidate) in s.instances
                     && Claim(g, t, candidate) != 0 && Claim(g, u, candidate) != 0 && Claim(g, v, candidate) != 0
                     && Claim(g, t, candidate) !in {Claim(g, u, candidate), Claim(g, v, candidate)};
      var r := FirstClaimIsRetired(s, g, candidate, t, u);
      var r' := DissentersLeaveTheBase(s, g, candidate, u, v, Claim(g, t, candidate));
      assert !(SameUpToOrder(Publish(s, g, candidate).0, Publish(r, g, candidate).0)
               && SameUpToOrder(Publish(s, g, candidate).0, Publish(r', g, candidate).0));
    }
  }

  /** A module known by its record alone, which guest memory shows loaded at that number. */
  function Sample(record: Address): Template {
    Template(record, 0x1000, 0x100, 0, 0, [FunctionRecord(0, 1)], true)
  }

  function SampleGuest(): Guest {
    var there := (t: Template, base: Address) => Some(Layout(base, 0));
    Guest((t: Template, candidate: Address) =>
        Some(Layout(if t.record < ADDRESSES then t.record else 0, 0)), there, there)
  }

  lemma {:induction false} RunOneMore(s: State, ops: seq<Operation>, op: Operation)
    ensures Run(s, ops + [op]) == Step(Run(s, ops), op)
  {
    assert (ops + [op])[..|ops|] == ops;
  }

  /** It does happen: three modules claim three bases, and the first of them is live. */
  lemma {:induction false} DissentHappens()
    ensures var a, b, c := Sample(0x10000), Sample(0x20000), Sample(0x30000);
            var s := Run(INITIAL, [RegisterOp(a), RegisterOp(b), RegisterOp(c)]
                + [AttachOp(SampleGuest(), a, 0x10000)]);
            Sound(s) && !AtMostOneDissents(s, SampleGuest(), 0)
  {
    hide Sound, Attach, Resolve, Publish, AtMostOneDissents, SampleGuest, Sample, Run, Register, Detach;
    var a, b, c := Sample(0x10000), Sample(0x20000), Sample(0x30000);
    var registered := [RegisterOp(a), RegisterOp(b), RegisterOp(c)];
    var attach := AttachOp(SampleGuest(), a, 0x10000);
    InitialIsSound();
    RunKeepsSound(INITIAL, registered + [attach]);
    RegisterSamples();
    RunOneMore(INITIAL, registered, attach);
    AttachSample();
  }

  lemma {:induction false} InitialIsSound()
    ensures Sound(INITIAL)
  {
  }

  lemma {:induction false} RegisterSamples()
    ensures var a, b, c := Sample(0x10000), Sample(0x20000), Sample(0x30000);
            Run(INITIAL, [RegisterOp(a), RegisterOp(b), RegisterOp(c)]) == State([a, b, c], map[], 1)
  {
    hide Attach, Resolve, Publish;
    var a, b, c := Sample(0x10000), Sample(0x20000), Sample(0x30000);
    var registered := [RegisterOp(a), RegisterOp(b), RegisterOp(c)];
    assert registered[..2] == [RegisterOp(a), RegisterOp(b)] && registered[..2][..1] == [RegisterOp(a)];
    assert [RegisterOp(a)][..0] == [];
    assert Run(INITIAL, [RegisterOp(a)]).templates == [a];
    assert Run(INITIAL, registered[..2]).templates == [a, b];
  }

  lemma {:induction false} AttachSample()
    ensures var a, b, c := Sample(0x10000), Sample(0x20000), Sample(0x30000);
            !AtMostOneDissents(Attach(State([a, b, c], map[], 1), SampleGuest(), a, 0x10000, false).0, SampleGuest(), 0)
  {
    var g, a, b, c := SampleGuest(), Sample(0x10000), Sample(0x20000), Sample(0x30000);
    var s := Attach(State([a, b, c], map[], 1), g, a, 0x10000, false).0;
    assert a in [a, b, c] && b in [a, b, c] && c in [a, b, c];
    assert g.validate(a, 0x10000) == Some(Layout(0x10000, 0));
    assert 0x10000 in s.instances;
    assert Claim(g, a, 0) == 0x10000 && Claim(g, b, 0) == 0x20000 && Claim(g, c, 0) == 0x30000;
  }

  // ---------------------------------------------------------------- the registry

  class ModuleRegistry {
    var templates: seq<Template>
    var instances: Instances
    var nextGeneration: nat

    function Snapshot(): State
      reads this
    {
      State(templates, instances, nextGeneration)
    }

    /** Live ranges are pairwise disjoint with representable ends, and generations are distinct and below the next. */
    ghost predicate Valid()
      reads this
    {
      Sound(Snapshot())
    }

    constructor ()
      ensures Valid() && Snapshot() == INITIAL
    {
      templates, instances, nextGeneration := [], map[], 1;
    }

    /** Structural checks of a template record. */
    static method ValidateTemplate(t: Template) returns (valid: bool)
      ensures valid == ValidTemplate(t)
    {
      if t.canonicalBase == 0 || t.imageSize == 0 || t.functions == [] || !t.hasResolver {
        return false;
      }
      if (t.bssSize == 0) != (t.canonicalBssBase == 0) {
        return false;
      }
      if t.canonicalBase + t.imageSize >= ADDRESSES {
        return false;
      }
      if t.bssSize != 0 {
        if t.canonicalBssBase + t.bssSize >= ADDRESSES ||
           RangesOverlap(t.canonicalBase, t.imageSize, t.canonicalBssBase, t.bssSize) {
          return false;
        }
      }
      for i := 0 to |t.functions|
        invariant SortedFunctions(t.functions[..i], t.imageSize)
      {
        var f := t.functions[i];
        if f.entry == 0 || f.offset >= t.imageSize || (i != 0 && t.functions[i-1].offset >= f.offset) {
          assert !SortedFunctions(t.functions, t.imageSize);
          return false;
        }
      }
      assert t.functions[..|t.functions|] == t.functions;
      return true;
    }

    method RegisterTemplate(t: Template) returns (accepted: bool)
      requires Valid()
      modifies this`templates
      ensures Valid() && accepted == ValidTemplate(t) && Snapshot() == Register(old(Snapshot()), t)
      ensures forall u :: u in templates <==> u in old(templates) || (accepted && u == t)
    {
      StepKeepsSound(Snapshot(), RegisterOp(t));
      hide Sound, ValidTemplate;
      accepted := ValidateTemplate(t);
      if accepted && t !in templates {
        templates := templates + [t];
      }
    }

    /** Drops every instance whose full validation no longer reports its layout, visiting them in any order. */
    method PruneStale(g: Guest)
      modifies this`instances
      ensures instances == Pruned(old(instances), g)
    {
      ghost var before := instances;
      var rest := instances.Keys;
      while rest != {}
        invariant rest <= before.Keys
        invariant instances == map b | b in before
            && (b in rest || StillThere(before[b], g.validate(before[b].template, before[b].base))) :: before[b]
        decreases |rest|
      {
        var b :| b in rest;
        var existing := instances[b];
        if !StillThere(existing, g.validate(existing.template, existing.base)) {
          instances := instances - {b};
        }
        rest := rest - {b};
      }
    }

    /** Looks for a live instance that overlaps the candidate, visiting them in any order. */
    method FindConflict(t: Template, base: Address, bssBase: Address, replaceSameBase: bool) returns (conflict: bool)
      ensures conflict == !ConflictFree(t, base, bssBase, instances, replaceSameBase)
    {
      hide Conflict;
      var rest := instances.Keys;
      while rest != {}
        invariant rest <= instances.Keys
        invariant forall b :: b in instances && b !in rest && !(b == base && replaceSameBase) ==>
                    !Conflict(t, base, bssBase, instances[b])
        decreases |rest|
      {
        var b :| b in rest;
        rest := rest - {b};
        if b == base && replaceSameBase {
          continue;
        }
        if Conflict(t, base, bssBase, instances[b]) {
          return true;
        }
      }
      return false;
    }

    method AttachInstanceLocked(g: Guest, t: Template, base: Address, replaceSameBase: bool)
      returns (token: Option<Token>)
      modifies this`instances, this`nextGeneration
      ensures (Snapshot(), token) == Attach(old(Snapshot()), g, t, base, replaceSameBase)
    {
      hide Conflict, StillThere, Pruned, ConflictFree;
      var layout := g.validate(t, base);
      if t !in templates || layout.None? {
        return None;
      }
      if layout.value.imageBase != base {
        return None;
      }
      if t.bssSize != 0 && layout.value.bssBase == 0 {
        return None;
      }
      if base + t.imageSize >= ADDRESSES {
        return None;
      }
      if t.bssSize != 0 {
        if layout.value.bssBase + t.bssSize >= ADDRESSES ||
           RangesOverlap(base, t.imageSize, layout.value.bssBase, t.bssSize) {
          return None;
        }
      }
      PruneStale(g);
      var conflict := FindConflict(t, base, layout.value.bssBase, replaceSameBase);
      if conflict {
        return None;
      }
      if !replaceSameBase && base in instances {
        return None;
      }
      var generation := nextGeneration;
      nextGeneration := nextGeneration + 1;
      instances := instances[base := Instance(t, base, layout.value.bssBase, generation)];
      return Some(Token(t, base, generation));
    }

    method AttachInstance(g: Guest, t: Template, base: Address) returns (token: Option<Token>)
      requires Valid()
      modifies this`instances, this`nextGeneration
      ensures Valid() && (Snapshot(), token) == Attach(old(Snapshot()), g, t, base, false)
    {
      StepKeepsSound(Snapshot(), AttachOp(g, t, base));
      hide Sound, Attach;
      token := AttachInstanceLocked(g, t, base, false);
    }

    /**
     Detaches the very instance the token was issued for, if it is still attached; from then on the token is
     spent.
     */
    method DetachInstance(token: Token) returns (detached: bool)
      requires Valid()
      modifies this`instances
      ensures Valid() && (Snapshot(), detached) == Detach(old(Snapshot()), token)
      ensures detached <==> exists i :: i in old(instances).Values &&
                              i.base == token.base && i.template == token.template && i.generation == token.generation
      ensures detached ==> Retired(Snapshot(), token.base, token.generation)
      ensures instances == if detached then old(instances) - {token.base} else old(instances)
    {
      StepKeepsSound(Snapshot(), DetachOp(token));
      TokenNamesItsInstance(Snapshot(), token);
      hide Sound;
      if token.generation == 0 {
        return false;
      }
      if token.base !in instances || instances[token.base].template != token.template ||
         instances[token.base].generation != token.generation {
        return false;
      }
      instances := instances - {token.base};
      return true;
    }

    /** A code publication at an address: asks every template, refuses on the second claim. */
    method NotifyCodePublication(g: Guest, candidate: Address) returns (published: bool)
      requires Valid()
      modifies this`instances, this`nextGeneration
      ensures Valid() && (Snapshot(), published) == Publish(old(Snapshot()), g, candidate)
    {
      StepKeepsSound(Snapshot(), PublishOp(g, candidate));
      hide Sound, Publish;
      published := AskEveryTemplate(g, candidate);
    }

    method AskEveryTemplate(g: Guest, candidate: Address) returns (published: bool)
      modifies this`instances, this`nextGeneration
      ensures (Snapshot(), published) == Publish(old(Snapshot()), g, candidate)
    {
      hide Attach, Claim;
      var match_: Option<Template> := None;
      var matchedBase: Address := 0;
      for i := 0 to |templates|
        invariant templates == old(templates) && instances == old(instances) && nextGeneration == old(nextGeneration)
        invariant Claimants(templates[..i], g, candidate) == if match_.Some? then [match_.value] else []
        invariant match_.Some? ==> matchedBase == Claim(g, match_.value, candidate)
      {
        assert templates[..i+1][..i] == templates[..i];
        var base := Claim(g, templates[i], candidate);
        if base == 0 {
          continue;
        }
        if match_.Some? {
          ClaimantsOfPrefix(templates, g, candidate, i + 1);
          instances := instances - {matchedBase, base};
          return false;
        }
        match_, matchedBase := Some(templates[i]), base;
      }
      assert templates[..|templates|] == templates;
      if match_.None? {
        return false;
      }
      var token := AttachInstanceLocked(g, match_.value, matchedBase, true);
      return token.Some?;
    }

    /**
     Resolves a call target, visiting instances in any order and validating only those whose image
     holds the target.
     */
    method TryResolveTarget(g: Guest, target: Address) returns (resolved: Option<Resolved>)
      requires Valid()
      modifies this`instances
      ensures Valid() && (Snapshot(), resolved) == Resolve(old(Snapshot()), g, target)
    {
      StepKeepsSound(Snapshot(), ResolveOp(g, target));
      hide Sound, Resolve;
      resolved := VisitInstances(g, target);
    }

    method VisitInstances(g: Guest, target: Address) returns (resolved: Option<Resolved>)
      requires Sound(Snapshot())
      modifies this`instances
      ensures (Snapshot(), resolved) == Resolve(old(Snapshot()), g, target)
    {
      ghost var s := Snapshot();
      var rest := instances.Keys;
      hide Sound, OutcomeSoFar, ImageHolds, DispatchValid, Resolve, FindFunction;
      NothingVisited(s, g, target);
      while rest != {}
        invariant templates == s.templates && nextGeneration == s.nextGeneration
        invariant rest <= instances.Keys
        invariant OutcomeSoFar(s, Snapshot(), g, target, rest)
        decreases |rest|
      {
        var b :| b in rest;
        VisitInstance(s, Snapshot(), g, target, rest, b);
        rest := rest - {b};
        var instance := instances[b];
        if !ImageHolds(instance, target) {
          continue;
        }
        if !DispatchValid(instance, g) {
          instances := instances - {b};
          continue;
        }
        var code := FindFunction(instance.template, target - instance.base);
        if code.Some? {
          return Some(Resolved(instance.template, code.value, instance.base, instance.bssBase, instance.generation));
        }
      }
      AllVisited(s, Snapshot(), g, target);
      return None;
    }

    /** A function of the running module, exactly while the instance it runs in is attached, unreplaced and valid. */
    method TryResolveCurrentFunction(g: Guest, cpu: Context, offset: Address) returns (resolved: Option<Resolved>)
      requires Valid()
      ensures resolved == ResolveCurrent(Snapshot(), g, cpu, offset)
      ensures resolved.Some? <==>
              && RunsIn(Snapshot(), cpu) && DispatchValid(instances[cpu.runtimeBase], g)
              && exists f :: f in cpu.template.value.functions && f.offset == offset
      ensures resolved.Some? ==>
              var r := resolved.value;
              && r.code in cpu.template.value.functions && r.code.offset == offset
              && Instance(r.template, r.base, r.bssBase, r.generation) == instances[cpu.runtimeBase]
    {
      CurrentMeans(Snapshot(), g, cpu, offset);
      if cpu.template.None? || cpu.generation == 0 {
        return None;
      }
      var t := cpu.template.value;
      if cpu.runtimeBase !in instances || instances[cpu.runtimeBase].template != t ||
         instances[cpu.runtimeBase].generation != cpu.generation ||
         instances[cpu.runtimeBase].bssBase != cpu.runtimeBssBase {
        return None;
      }
      if g.validateDispatch(t, cpu.runtimeBase) != Some(Layout(cpu.runtimeBase, cpu.runtimeBssBase)) {
        return None;
      }
      var code := FindFunction(t, offset);
      if code.None? {
        return None;
      }
      return Some(Resolved(t, code.value, cpu.runtimeBase, cpu.runtimeBssBase, cpu.generation));
    }
  }

  lemma {:induction false} ClaimantsOfPrefix(ts: seq<Template>, g: Guest, candidate: Address, n: nat)
    requires n <= |ts|
    ensures Claimants(ts[..n], g, candidate) <= Claimants(ts, g, candidate)
  {
    if n < |ts| {
      assert ts[..|ts|-1][..n] == ts[..n];
      ClaimantsOfPrefix(ts[..|ts|-1], g, candidate, n);
    } else {
      assert ts[..n] == ts;
    }
  }

  /** The instances still to visit: the holder of the target is among them, or resolution ended without a result. */
  ghost predicate OutcomeSoFar(s: State, now: State, g: Guest, target: Address, rest: set<Address>) {
    if exists b :: b in rest && b in s.instances && ImageHolds(s.instances[b], target)
    then now == s
    else (now, None) == Resolve(s, g, target)
  }

  lemma {:induction false} NothingVisited(s: State, g: Guest, target: Address)
    ensures OutcomeSoFar(s, s, g, target, s.instances.Keys)
  {
  }

  lemma {:induction false} AllVisited(s: State, now: State, g: Guest, target: Address)
    requires OutcomeSoFar(s, now, g, target, {})
    ensures (now, None) == Resolve(s, g, target)
  {
  }

  lemma {:induction false} VisitInstance(s: State, now: State, g: Guest, target: Address, rest: set<Address>,
                                         b: Address)
    requires Sound(s) && b in rest && rest <= now.instances.Keys && OutcomeSoFar(s, now, g, target, rest)
    ensures !ImageHolds(now.instances[b], target) ==> OutcomeSoFar(s, now, g, target, rest - {b})
    ensures ImageHolds(now.instances[b], target) ==>
              var (s', r) := ResolveIn(now, g, target, b);
              now == s && (s', r) == Resolve(s, g, target) && (r.None? ==> OutcomeSoFar(s, s', g, target, rest - {b}))
  {
    hide Sound, ResolveIn, ImageHolds;
    NowIsSubset(s, now, g, target, rest);
    if ImageHolds(now.instances[b], target) {
      assert exists c :: c in rest && c in s.instances && ImageHolds(s.instances[c], target);
      ResolveAt(s, g, target, b);
      assert !exists c :: c in rest - {b} && c in s.instances && ImageHolds(s.instances[c], target);
    }
  }

  lemma {:induction false} NowIsSubset(s: State, now: State, g: Guest, target: Address, rest: set<Address>)
    requires OutcomeSoFar(s, now, g, target, rest)
    ensures forall c :: c in now.instances ==> c in s.instances && now.instances[c] == s.instances[c]
  {
  }
}
