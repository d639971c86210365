/**
 Registered guest functions and the rule that picks one winner per guest address.
 */
module FunctionRegistry {

  datatype FunctionKind = BaseTranslated | ModTranslated | Native

  const BASE_PRIORITY := 0
  const MOD_PRIORITY := 100
  const NATIVE_PRIORITY := 10000

  /** A host entry point; 0 is the null pointer. */
  type Entry = nat

  datatype FunctionInfo = FunctionInfo(address: nat, moduleId: nat, priority: nat, fprWriteMask: bv32,
                                       invoker: Entry, dynamicallyDispatchable: bool, kind: FunctionKind)

  function DefaultPriority(kind: FunctionKind): nat {
    match kind
    case BaseTranslated => BASE_PRIORITY
    case ModTranslated => MOD_PRIORITY
    case Native => NATIVE_PRIORITY
  }

  function EffectivePriority(f: FunctionInfo): nat {
    if f.priority != 0 then f.priority else DefaultPriority(f.kind)
  }

  function KindRank(kind: FunctionKind): nat {
    match kind
    case BaseTranslated => 0
    case ModTranslated => 1
    case Native => 2
  }

  predicate IsBetterCandidate(candidate: FunctionInfo, current: FunctionInfo) {
    if EffectivePriority(candidate) != EffectivePriority(current)
    then EffectivePriority(candidate) > EffectivePriority(current)
    else if KindRank(candidate.kind) != KindRank(current.kind)
    then KindRank(candidate.kind) > KindRank(current.kind)
    else candidate.moduleId > current.moduleId
  }

  predicate IsSameRegistration(a: FunctionInfo, b: FunctionInfo) {
    && a.address == b.address && a.kind == b.kind
    && EffectivePriority(a) == EffectivePriority(b) && a.moduleId == b.moduleId
  }

  function Normalized(f: FunctionInfo): (r: FunctionInfo)
    ensures EffectivePriority(r) == EffectivePriority(f)
  {
    f.(priority := EffectivePriority(f))
  }

  predicate KeyTaken(entries: seq<FunctionInfo>, f: FunctionInfo) {
    exists i :: 0 <= i < |entries| && IsSameRegistration(entries[i], f)
  }

  /** Registering one function: a second registration with the same key is ignored. */
  function Registered(entries: seq<FunctionInfo>, f: FunctionInfo): seq<FunctionInfo> {
    if KeyTaken(entries, Normalized(f)) then entries else entries + [Normalized(f)]
  }

  function RegisterAll(fs: seq<FunctionInfo>): seq<FunctionInfo> {
    if fs == [] then [] else Registered(RegisterAll(fs[..|fs|-1]), fs[|fs|-1])
  }

  ghost predicate DistinctKeys(entries: seq<FunctionInfo>) {
    forall i, j :: 0 <= i < j < |entries| ==> !IsSameRegistration(entries[i], entries[j])
  }

  /** f is registered for its address and nothing else registered there is as good. */
  ghost predicate IsWinner(entries: seq<FunctionInfo>, f: FunctionInfo) {
    && f in entries
    && forall g :: g in entries && g.address == f.address && g != f ==> IsBetterCandidate(f, g)
  }

  /** Candidates for one address are strictly ordered by better-than: any two different keys compare one way. */
  lemma {:induction false} BetterIsStrictOrder(a: FunctionInfo, b: FunctionInfo, c: FunctionInfo)
    ensures !(IsBetterCandidate(a, b) && IsBetterCandidate(b, a))
    ensures IsBetterCandidate(a, b) && IsBetterCandidate(b, c) ==> IsBetterCandidate(a, c)
    ensures a.address == b.address ==>
        (IsBetterCandidate(a, b) || IsBetterCandidate(b, a) <==> !IsSameRegistration(a, b))
  {
    assert KindRank(a.kind) == KindRank(b.kind) ==> a.kind == b.kind;
  }

  lemma {:induction false} WinnerIsUnique(entries: seq<FunctionInfo>, f: FunctionInfo, g: FunctionInfo)
    requires IsWinner(entries, f) && IsWinner(entries, g) && f.address == g.address
    ensures f == g
  {
    BetterIsStrictOrder(f, g, f);
  }

  lemma {:induction false} RegisteredKeepsKeys(entries: seq<FunctionInfo>, f: FunctionInfo)
    requires DistinctKeys(entries)
    ensures DistinctKeys(Registered(entries, f))
  {
  }

  // ---------------------------------------------------------------- registration order

  /** Registration i is the first with its key. */
  ghost predicate FirstOfKey(fs: seq<FunctionInfo>, i: nat)
    requires i < |fs|
  {
    forall j :: 0 <= j < i ==> !IsSameRegistration(fs[j], fs[i])
  }

  lemma {:induction false} FirstWithKey(fs: seq<FunctionInfo>, i: nat) returns (j: nat)
    requires i < |fs|
    ensures j <= i && FirstOfKey(fs, j) && IsSameRegistration(fs[j], fs[i])
    decreases i
  {
    if FirstOfKey(fs, i) {
      j := i;
    } else {
      var k: nat :| k < i && IsSameRegistration(fs[k], fs[i]);
      j := FirstWithKey(fs, k);
    }
  }

  /** g is, normalized, the first function given for its key. */
  ghost predicate Held(fs: seq<FunctionInfo>, g: FunctionInfo) {
    exists i :: 0 <= i < |fs| && FirstOfKey(fs, i) && g == Normalized(fs[i])
  }

  lemma {:induction false} HeldAfterAppend(init: seq<FunctionInfo>, last: FunctionInfo, g: FunctionInfo)
    ensures var fs := init + [last];
            Held(fs, g) <==> Held(init, g) || (FirstOfKey(fs, |init|) && g == Normalized(last))
  {
    hide IsSameRegistration, Normalized;
    var fs := init + [last];
    forall i | 0 <= i < |init| ensures fs[i] == init[i] && (FirstOfKey(fs, i) <==> FirstOfKey(init, i)) {
      assert forall j :: 0 <= j <= i ==> fs[j] == init[j];
    }
    if i :| 0 <= i < |init| && FirstOfKey(init, i) && g == Normalized(init[i]) {
      assert FirstOfKey(fs, i) && g == Normalized(fs[i]);
    }
  }

  /** Registering keeps, normalized, exactly the first function given for each key. */
  lemma {:induction false} RegisterAllHolds(fs: seq<FunctionInfo>)
    ensures forall g :: g in RegisterAll(fs) <==> Held(fs, g)
  {
    hide IsSameRegistration, Normalized, Held, FirstOfKey, KeyTaken;
    if fs == [] {
      NothingHeld();
    } else {
      var n := |fs| - 1;
      var init, last := fs[..n], fs[n];
      assert fs == init + [last];
      RegisterAllHolds(init);
      TakenMeansNotFirst(init, last);
      forall g ensures g in RegisterAll(fs) <==> Held(fs, g) {
        HeldAfterAppend(init, last, g);
      }
    }
  }

  lemma {:induction false} NothingHeld()
    ensures forall g :: !Held([], g)
  {
  }

  lemma {:induction false} TakenMeansNotFirst(init: seq<FunctionInfo>, last: FunctionInfo)
    requires forall g :: g in RegisterAll(init) <==> Held(init, g)
    ensures KeyTaken(RegisterAll(init), Normalized(last)) <==> !FirstOfKey(init + [last], |init|)
  {
    hide RegisterAll;
    var before, fs := RegisterAll(init), init + [last];
    if k :| 0 <= k < |before| && IsSameRegistration(before[k], Normalized(last)) {
      assert before[k] in before;
      var i :| 0 <= i < |init| && FirstOfKey(init, i) && before[k] == Normalized(init[i]);
      assert IsSameRegistration(fs[i], last);
    }
    if j :| 0 <= j < |init| && IsSameRegistration(fs[j], last) {
      var i := FirstWithKey(init, j);
      assert Held(init, Normalized(init[i]));
      var k :| 0 <= k < |before| && before[k] == Normalized(init[i]);
      assert IsSameRegistration(before[k], Normalized(last));
    }
  }

  /** No registration at its address is better than f. */
  ghost predicate Best(fs: seq<FunctionInfo>, f: FunctionInfo) {
    f in fs && forall h :: h in fs && h.address == f.address ==> !IsBetterCandidate(h, f)
  }

  lemma {:induction false} HeldKeyCompares(fs: seq<FunctionInfo>, h: FunctionInfo, w: FunctionInfo)
    returns (g: FunctionInfo)
    requires h in fs
    ensures Held(fs, g) && g.address == h.address
    ensures IsBetterCandidate(g, w) <==> IsBetterCandidate(h, w)
  {
    var k :| 0 <= k < |fs| && fs[k] == h;
    var j := FirstWithKey(fs, k);
    g := Normalized(fs[j]);
    assert Held(fs, g);
  }

  lemma {:induction false} WinnerIsBest(fs: seq<FunctionInfo>, i: nat, w: FunctionInfo)
    requires i < |fs| && FirstOfKey(fs, i) && w == Normalized(fs[i]) && IsWinner(RegisterAll(fs), w)
    ensures Best(fs, fs[i])
  {
    hide RegisterAll, FirstOfKey, Held, IsSameRegistration;
    RegisterAllHolds(fs);
    forall h | h in fs && h.address == fs[i].address ensures !IsBetterCandidate(h, fs[i]) {
      var g := HeldKeyCompares(fs, h, w);
      BetterIsStrictOrder(g, w, w);
    }
  }

  lemma {:induction false} BestIsWinner(fs: seq<FunctionInfo>, i: nat)
    requires i < |fs| && FirstOfKey(fs, i) && Best(fs, fs[i])
    ensures IsWinner(RegisterAll(fs), Normalized(fs[i]))
  {
    hide RegisterAll, IsBetterCandidate;
    RegisterAllHolds(fs);
    var held, w := RegisterAll(fs), Normalized(fs[i]);
    assert Held(fs, w);
    forall g | g in held && g.address == w.address && g != w ensures IsBetterCandidate(w, g) {
      var k :| 0 <= k < |fs| && FirstOfKey(fs, k) && g == Normalized(fs[k]);
      assert !IsSameRegistration(fs[k], fs[i]);
      BetterIsStrictOrder(fs[k], fs[i], fs[i]);
      NormalizedCompares(fs[i], fs[k]);
    }
  }

  lemma {:induction false} NormalizedCompares(f: FunctionInfo, g: FunctionInfo)
    ensures IsBetterCandidate(Normalized(f), Normalized(g)) <==> IsBetterCandidate(f, g)
  {
  }

  /** The winner at an address is the first function given for the best key there. */
  lemma {:induction false} WinnerIsFirstOfBest(fs: seq<FunctionInfo>, w: FunctionInfo)
    ensures IsWinner(RegisterAll(fs), w) <==>
            exists i :: 0 <= i < |fs| && FirstOfKey(fs, i) && Best(fs, fs[i]) && w == Normalized(fs[i])
  {
    hide RegisterAll, IsBetterCandidate, Best, FirstOfKey, Normalized;
    RegisterAllHolds(fs);
    if IsWinner(RegisterAll(fs), w) {
      var i :| 0 <= i < |fs| && FirstOfKey(fs, i) && w == Normalized(fs[i]);
      WinnerIsBest(fs, i, w);
    }
    if i :| 0 <= i < |fs| && FirstOfKey(fs, i) && Best(fs, fs[i]) && w == Normalized(fs[i]) {
      BestIsWinner(fs, i);
    }
  }

  // ---------------------------------------------------------------- what winning means

  /** The priority a function competes with: its own unless that is zero, else the one of its kind. */
  function PriorityInForce(f: FunctionInfo): nat {
    match (f.priority, f.kind)
    case (0, BaseTranslated) => 0
    case (0, ModTranslated) => 100
    case (0, Native) => 10000
    case (p, _) => p
  }

  /**
   w, held with its priority in force, gives way to nothing about g: it has the higher priority, or at equal
   priority native code before mod code before base code, or among equals at least the module number.
   */
  predicate Outranks(w: FunctionInfo, g: FunctionInfo) {
    || w.priority > PriorityInForce(g)
    || (w.priority == PriorityInForce(g) &&
        match (w.kind, g.kind)
        case (Native, Native) => w.moduleId >= g.moduleId
        case (Native, _) => true
        case (_, Native) => false
        case (ModTranslated, ModTranslated) => w.moduleId >= g.moduleId
        case (ModTranslated, BaseTranslated) => true
        case (BaseTranslated, ModTranslated) => false
        case (BaseTranslated, BaseTranslated) => w.moduleId >= g.moduleId)
  }

  lemma {:induction false} OutranksIsNotWorse(w: FunctionInfo, f: FunctionInfo, g: FunctionInfo)
    requires w == Normalized(f)
    ensures w.priority == PriorityInForce(f)
    ensures Outranks(w, g) <==> !IsBetterCandidate(g, f)
  {
  }

  /**
   Of everything registered for an address the winner is what outranks all of it: mod code replaces base
   code, a native replacement replaces both, a priority given by hand overrides, the higher module number wins.
   */
  lemma {:induction false} WinnerOutranks(fs: seq<FunctionInfo>, w: FunctionInfo)
    requires w in RegisterAll(fs)
    ensures IsWinner(RegisterAll(fs), w) <==> forall g :: g in fs && g.address == w.address ==> Outranks(w, g)
  {
    hide RegisterAll, IsBetterCandidate, FirstOfKey, IsWinner, Outranks;
    RegisterAllHolds(fs);
    WinnerIsFirstOfBest(fs, w);
    var i :| 0 <= i < |fs| && FirstOfKey(fs, i) && w == Normalized(fs[i]);
    forall k, g | 0 <= k < |fs| && w == Normalized(fs[k]) ensures Outranks(w, g) <==> !IsBetterCandidate(g, fs[k]) {
      OutranksIsNotWorse(w, fs[k], g);
    }
    assert Best(fs, fs[i]) <==> forall g :: g in fs && g.address == w.address ==> Outranks(w, g);
  }

  /** At every address, the registrations with the winning key are one function. */
  ghost predicate WinningKeysAgree(fs: seq<FunctionInfo>) {
    forall f, g :: g in fs && Best(fs, f) && IsSameRegistration(f, g) ==> Normalized(f) == Normalized(g)
  }

  ghost predicate SameWinners(fs: seq<FunctionInfo>, gs: seq<FunctionInfo>) {
    forall w :: IsWinner(RegisterAll(fs), w) <==> IsWinner(RegisterAll(gs), w)
  }

  lemma {:induction false} WinnerStays(fs: seq<FunctionInfo>, gs: seq<FunctionInfo>, w: FunctionInfo)
    requires forall f :: f in fs <==> f in gs
    requires WinningKeysAgree(fs) && IsWinner(RegisterAll(fs), w)
    ensures IsWinner(RegisterAll(gs), w)
  {
    hide IsWinner, IsBetterCandidate, RegisterAll;
    WinnerIsFirstOfBest(fs, w);
    WinnerIsFirstOfBest(gs, w);
    var i :| 0 <= i < |fs| && FirstOfKey(fs, i) && Best(fs, fs[i]) && w == Normalized(fs[i]);
    assert fs[i] in gs;
    var k :| 0 <= k < |gs| && gs[k] == fs[i];
    var j := FirstWithKey(gs, k);
    assert gs[j] in gs && gs[j] in fs;
    BestDependsOnKey(fs, gs, fs[i], gs[j]);
  }

  lemma {:induction false} BestDependsOnKey(fs: seq<FunctionInfo>, gs: seq<FunctionInfo>, f: FunctionInfo,
                                            g: FunctionInfo)
    requires (forall h :: h in fs <==> h in gs) && g in gs && Best(fs, f) && IsSameRegistration(f, g)
    ensures Best(gs, g)
  {
  }

  /** Then every order of the registrations, repeated or not, gives the same winner at every address. */
  lemma {:induction false} WinnerIsOrderIndependent(fs: seq<FunctionInfo>, gs: seq<FunctionInfo>)
    requires forall f :: f in fs <==> f in gs
    requires WinningKeysAgree(fs)
    ensures SameWinners(fs, gs)
  {
    hide IsWinner, IsBetterCandidate, RegisterAll, IsSameRegistration;
    forall f | Best(gs, f) ensures Best(fs, f) {
    }
    forall w ensures IsWinner(RegisterAll(fs), w) <==> IsWinner(RegisterAll(gs), w) {
      if IsWinner(RegisterAll(fs), w) {
        WinnerStays(fs, gs, w);
      }
      if IsWinner(RegisterAll(gs), w) {
        WinnerStays(gs, fs, w);
      }
    }
  }

  function MovedToFront(fs: seq<FunctionInfo>, i: nat): (gs: seq<FunctionInfo>)
    requires i < |fs|
    ensures multiset(gs) == multiset(fs) && forall f :: f in fs <==> f in gs
  {
    assert fs == fs[..i] + [fs[i]] + fs[i+1..];
    [fs[i]] + fs[..i] + fs[i+1..]
  }

  lemma {:induction false} FrontOfBestWins(fs: seq<FunctionInfo>, i: nat, f: FunctionInfo)
    requires i < |fs| && Best(fs, f) && IsSameRegistration(f, fs[i])
    ensures IsWinner(RegisterAll(MovedToFront(fs, i)), Normalized(fs[i]))
  {
    hide IsWinner, IsBetterCandidate, RegisterAll;
    var gs := MovedToFront(fs, i);
    WinnerIsFirstOfBest(gs, Normalized(fs[i]));
    BestDependsOnKey(fs, gs, f, fs[i]);
    assert FirstOfKey(gs, 0) && gs[0] == fs[i];
  }

  /**
   The order of registrations is invisible if and only if, at every address, all registrations with
   the winning key are one function: clashes below the winning key are harmless.
   */
  lemma {:induction false} OrderIsInvisibleExactly(fs: seq<FunctionInfo>)
    ensures WinningKeysAgree(fs) <==> forall gs :: multiset(gs) == multiset(fs) ==> SameWinners(fs, gs)
  {
    hide IsWinner, IsBetterCandidate, RegisterAll, IsSameRegistration, Normalized;
    if WinningKeysAgree(fs) {
      forall gs | multiset(gs) == multiset(fs) ensures SameWinners(fs, gs) {
        forall f ensures f in fs <==> f in gs {
          assert f in fs <==> f in multiset(fs);
          assert f in gs <==> f in multiset(gs);
        }
        WinnerIsOrderIndependent(fs, gs);
      }
    }
    if forall gs :: multiset(gs) == multiset(fs) ==> SameWinners(fs, gs) {
      forall f, g | g in fs && Best(fs, f) && IsSameRegistration(f, g) ensures Normalized(f) == Normalized(g) {
        var i :| 0 <= i < |fs| && fs[i] == f;
        var j :| 0 <= j < |fs| && fs[j] == g;
        SameAsItself(f);
        FrontOfBestWins(fs, i, f);
        FrontOfBestWins(fs, j, f);
        assert SameWinners(fs, MovedToFront(fs, i)) && SameWinners(fs, MovedToFront(fs, j));
        SameKeySameAddress(f, g);
        WinnerIsUnique(RegisterAll(fs), Normalized(f), Normalized(g));
      }
    }
  }

  lemma {:induction false} SameAsItself(f: FunctionInfo)
    ensures IsSameRegistration(f, f)
  {
  }

  lemma {:induction false} SameKeySameAddress(f: FunctionInfo, g: FunctionInfo)
    requires IsSameRegistration(f, g)
    ensures Normalized(f).address == Normalized(g).address
  {
  }

  /** The smallest case in which the order shows: the first of two registrations with one key stays. */
  lemma {:induction false} EqualKeysKeepTheFirst(f: FunctionInfo, g: FunctionInfo)
    requires IsSameRegistration(f, g) && Normalized(f) != Normalized(g)
    ensures IsWinner(RegisterAll([f, g]), Normalized(f)) && !IsWinner(RegisterAll([f, g]), Normalized(g))
    ensures IsWinner(RegisterAll([g, f]), Normalized(g)) && !IsWinner(RegisterAll([g, f]), Normalized(f))
  {
    FirstOfTwoStays(f, g);
    FirstOfTwoStays(g, f);
  }

  lemma {:induction false} FirstOfTwoStays(f: FunctionInfo, g: FunctionInfo)
    requires IsSameRegistration(f, g)
    ensures RegisterAll([f, g]) == [Normalized(f)]
  {
    assert [f, g][..1] == [f] && [f][..0] == [];
    assert RegisterAll([f]) == Registered([], f) == [Normalized(f)];
    assert IsSameRegistration([Normalized(f)][0], Normalized(g));
  }

  lemma {:induction false} RegisterAllKeepsKeys(fs: seq<FunctionInfo>)
    ensures DistinctKeys(RegisterAll(fs))
  {
    if fs != [] {
      RegisterAllKeepsKeys(fs[..|fs|-1]);
      RegisteredKeepsKeys(RegisterAll(fs[..|fs|-1]), fs[|fs|-1]);
    }
  }

  /** Entries tell their address, kind, priority in force and module apart. */
  ghost predicate ToldApart(entries: seq<FunctionInfo>) {
    forall i, j :: 0 <= i < j < |entries| ==>
      || entries[i].address != entries[j].address || entries[i].kind != entries[j].kind
      || entries[i].priority != entries[j].priority || entries[i].moduleId != entries[j].moduleId
  }

  /** g stands for f: it is f with its priority in force, or an earlier registration equal to f as far as it counts. */
  predicate StandsFor(g: FunctionInfo, f: FunctionInfo) {
    g.address == f.address && g.kind == f.kind && g.moduleId == f.moduleId && g.priority == PriorityInForce(f)
  }

  /** Nothing registered is lost and nothing else is held: each registration has exactly one entry standing for it. */
  lemma {:induction false} EveryKeyIsHeldOnce(fs: seq<FunctionInfo>)
    ensures ToldApart(RegisterAll(fs))
    ensures forall f :: f in fs ==> exists g :: g in RegisterAll(fs) && StandsFor(g, f)
    ensures forall g :: g in RegisterAll(fs) ==>
              exists f :: f in fs && StandsFor(g, f) && g == f.(priority := PriorityInForce(f))
  {
    hide RegisterAll, FirstOfKey;
    RegisterAllHolds(fs);
    RegisterAllKeepsKeys(fs);
    forall f | f in fs ensures exists g :: g in RegisterAll(fs) && StandsFor(g, f) {
      var k :| 0 <= k < |fs| && fs[k] == f;
      var j := FirstWithKey(fs, k);
      assert Held(fs, Normalized(fs[j])) && StandsFor(Normalized(fs[j]), f);
    }
    HeldHaveTheirPriority(fs);
  }

  lemma {:induction false} HeldHaveTheirPriority(fs: seq<FunctionInfo>)
    requires forall g :: g in RegisterAll(fs) <==> Held(fs, g)
    ensures forall g :: g in RegisterAll(fs) ==>
              exists f :: f in fs && StandsFor(g, f) && g == f.(priority := PriorityInForce(f))
    ensures forall g :: g in RegisterAll(fs) ==> EffectivePriority(g) == g.priority
  {
    hide RegisterAll, FirstOfKey;
    forall g | g in RegisterAll(fs)
      ensures exists f :: f in fs && StandsFor(g, f) && g == f.(priority := PriorityInForce(f))
      ensures EffectivePriority(g) == g.priority
    {
      var i :| 0 <= i < |fs| && FirstOfKey(fs, i) && g == Normalized(fs[i]);
      assert fs[i] in fs && StandsFor(g, fs[i]);
    }
  }

  // ---------------------------------------------------------------- the address index

  /** The index has exactly the registered addresses, each mapped to the position of its winner. */
  ghost predicate IndexExact(entries: seq<FunctionInfo>, index: map<nat, nat>) {
    && (forall i :: 0 <= i < |entries| ==> entries[i].address in index)
    && (forall a :: a in index ==>
          index[a] < |entries| && entries[index[a]].address == a && IsWinner(entries, entries[index[a]]))
  }

  /** The index is determined by the entries, so the one kept up to date equals the one rebuilt from scratch. */
  lemma {:induction false} IndexIsUnique(entries: seq<FunctionInfo>, index: map<nat, nat>, rebuilt: map<nat, nat>)
    requires DistinctKeys(entries) && IndexExact(entries, index) && IndexExact(entries, rebuilt)
    ensures index == rebuilt
  {
    forall a | a in index ensures a in rebuilt && index[a] == rebuilt[a] {
      assert entries[index[a]].address in rebuilt;
      WinnerIsUnique(entries, entries[index[a]], entries[rebuilt[a]]);
      var i, j := index[a], rebuilt[a];
      assert !(i < j) && !(j < i);
    }
    forall a | a in rebuilt ensures a in index {
      assert entries[rebuilt[a]].address in index;
    }
  }

  /** One step of keeping the index: the new last entry takes its address over exactly when it is better. */
  function Indexed(entries: seq<FunctionInfo>, index: map<nat, nat>): map<nat, nat>
    requires entries != []
    requires forall a :: a in index ==> index[a] < |entries| - 1
  {
    var n := |entries| - 1;
    var a := entries[n].address;
    if a !in index || IsBetterCandidate(entries[n], entries[index[a]]) then index[a := n] else index
  }

  lemma {:induction false} WinnerAfterAppend(before: seq<FunctionInfo>, f: FunctionInfo, w: FunctionInfo)
    requires IsWinner(before, w) && !IsSameRegistration(w, f)
    ensures w.address != f.address || IsBetterCandidate(w, f) ==> IsWinner(before + [f], w)
    ensures w.address == f.address && IsBetterCandidate(f, w) ==> IsWinner(before + [f], f)
    ensures w.address == f.address ==> IsBetterCandidate(f, w) || IsBetterCandidate(w, f)
  {
    BetterIsStrictOrder(f, w, f);
    assert w in before + [f] && f in before + [f];
    forall g | g in before + [f] ensures g in before || g == f {
    }
    if w.address == f.address && IsBetterCandidate(f, w) {
      forall g | g in before && g.address == f.address ensures IsBetterCandidate(f, g) {
        BetterIsStrictOrder(f, w, g);
      }
    }
  }

  lemma {:induction false} IndexedIsExact(before: seq<FunctionInfo>, f: FunctionInfo, index: map<nat, nat>)
    requires DistinctKeys(before + [f]) && IndexExact(before, index)
    ensures IndexExact(before + [f], Indexed(before + [f], index))
  {
    var entries := before + [f];
    var index' := Indexed(entries, index);
    forall a | a in index'
      ensures index'[a] < |entries| && entries[index'[a]].address == a && IsWinner(entries, entries[index'[a]])
    {
      if a in index {
        var w := before[index[a]];
        assert entries[index[a]] == w && entries[|before|] == f;
        hide IsBetterCandidate, IsSameRegistration, IsWinner;
        WinnerAfterAppend(before, f, w);
      } else {
        assert f in entries;
        forall g | g in entries && g.address == a ensures g == f {
          var i :| 0 <= i < |entries| && entries[i] == g;
        }
      }
    }
    forall i | 0 <= i < |entries| ensures entries[i].address in index' {
      assert i < |before| ==> entries[i] == before[i];
    }
  }
}
