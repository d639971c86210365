/**
 Moving guest addresses between where a module was linked (canonical) and where it was loaded
 (runtime). The arithmetic is 32-bit; a context without a module leaves addresses alone.
 */
module AddressTranslation {
  import opened AddressSpace
  import opened Wrappers
  import opened DynamicModules

  function Wrap(a: int): Address { a % ADDRESSES }

  predicate NoModule(cpu: Option<Context>) { cpu.None? || cpu.value.template.None? }

  function RebaseCanonicalAddress(cpu: Option<Context>, address: Address): Address {
    if NoModule(cpu) || cpu.value.imageSize == 0 then address
    else
      var c := cpu.value;
      if address < c.canonicalBase || address >= c.canonicalBase + c.imageSize then
        if c.bssSize != 0 && address >= c.canonicalBssBase && address < c.canonicalBssBase + c.bssSize
        then Wrap(c.runtimeBssBase + (address - c.canonicalBssBase))
        else address
      else Wrap(c.runtimeBase + (address - c.canonicalBase))
  }

  function CanonicalAddressFromRuntime(cpu: Option<Context>, address: Address): Address {
    if NoModule(cpu) then address
    else
      var c := cpu.value;
      if address >= c.runtimeBase && address < c.runtimeBase + c.imageSize
      then Wrap(c.canonicalBase + (address - c.runtimeBase))
      else if c.bssSize != 0 && address >= c.runtimeBssBase && address < c.runtimeBssBase + c.bssSize
      then Wrap(c.canonicalBssBase + (address - c.runtimeBssBase))
      else address
  }

  function CanonicalLinkAddressFromRuntime(cpu: Option<Context>, address: Address): Address {
    if NoModule(cpu) then address
    else
      var c := cpu.value;
      if address >= c.runtimeBase && address <= c.runtimeBase + c.imageSize
      then Wrap(c.canonicalBase + (address - c.runtimeBase))
      else CanonicalAddressFromRuntime(cpu, address)
  }

  predicate Canonical(c: Context, a: int) {
    InRange(a, c.canonicalBase, c.imageSize) || InRange(a, c.canonicalBssBase, c.bssSize)
  }

  predicate Runtime(c: Context, a: int) {
    InRange(a, c.runtimeBase, c.imageSize) || InRange(a, c.runtimeBssBase, c.bssSize)
  }

  /** Image and BSS do not meet, linked or loaded, and all ends are representable. */
  predicate WellPlaced(c: Context) {
    && c.template.Some? && c.imageSize != 0
    && c.canonicalBase + c.imageSize < ADDRESSES && c.runtimeBase + c.imageSize < ADDRESSES
    && c.canonicalBssBase + c.bssSize < ADDRESSES && c.runtimeBssBase + c.bssSize < ADDRESSES
    && (c.bssSize != 0 ==>
          && !RangesOverlap(c.canonicalBase, c.imageSize, c.canonicalBssBase, c.bssSize)
          && !RangesOverlap(c.runtimeBase, c.imageSize, c.runtimeBssBase, c.bssSize))
  }

  /** Every context entered through a resolved target of any run is well placed. */
  lemma {:induction false} EnteredContextIsWellPlaced(ops: seq<Operation>, g: Guest, target: Address)
    requires Resolve(Run(INITIAL, ops), g, target).1.Some?
    ensures WellPlaced(Entered(Resolve(Run(INITIAL, ops), g, target).1.value))
  {
    var s := Run(INITIAL, ops);
    InitialIsSound();
    RunKeepsSound(INITIAL, ops);
    hide Run, Admitted, WellPlaced, Apart, ValidTemplate, ImageHolds, DispatchValid, FindFunction;
    var b :| b in s.instances && ImageHolds(s.instances[b], target)
             && Resolve(s, g, target) == ResolveIn(s, g, target, b);
    assert Admitted(s, b);
    AdmittedIsWellPlaced(s, b, Resolve(s, g, target).1.value.code);
  }

  lemma {:induction false} AdmittedIsWellPlaced(s: State, b: Address, f: FunctionRecord)
    requires b in s.instances && Admitted(s, b)
    ensures var i := s.instances[b];
            WellPlaced(Entered(Resolved(i.template, f, i.base, i.bssBase, i.generation)))
  {
  }

  /** Without the 32-bit wrap-around, which a well placed module never reaches. */
  lemma {:induction false} TranslationsAreOffsets(c: Context, a: Address)
    requires WellPlaced(c)
    ensures RebaseCanonicalAddress(Some(c), a) ==
              if InRange(a, c.canonicalBase, c.imageSize) then c.runtimeBase + (a - c.canonicalBase)
              else if InRange(a, c.canonicalBssBase, c.bssSize) then c.runtimeBssBase + (a - c.canonicalBssBase)
              else a
    ensures CanonicalAddressFromRuntime(Some(c), a) ==
              if InRange(a, c.runtimeBase, c.imageSize) then c.canonicalBase + (a - c.runtimeBase)
              else if InRange(a, c.runtimeBssBase, c.bssSize) then c.canonicalBssBase + (a - c.runtimeBssBase)
              else a
  {
  }

  /** Rebasing and translating back is the identity exactly off the loaded ranges or on the linked ones. */
  lemma {:induction false} RebaseIsUndone(c: Context, a: Address)
    requires WellPlaced(c)
    ensures CanonicalAddressFromRuntime(Some(c), RebaseCanonicalAddress(Some(c), a)) == a <==>
              Canonical(c, a) || !Runtime(c, a)
  {
    hide RebaseCanonicalAddress, CanonicalAddressFromRuntime;
    TranslationsAreOffsets(c, a);
    TranslationsAreOffsets(c, RebaseCanonicalAddress(Some(c), a));
  }

  /** The other way round: exactly off the linked ranges or on the loaded ones. */
  lemma {:induction false} CanonicalizationIsUndone(c: Context, a: Address)
    requires WellPlaced(c)
    ensures RebaseCanonicalAddress(Some(c), CanonicalAddressFromRuntime(Some(c), a)) == a <==>
              Runtime(c, a) || !Canonical(c, a)
  {
    hide RebaseCanonicalAddress, CanonicalAddressFromRuntime;
    TranslationsAreOffsets(c, a);
    TranslationsAreOffsets(c, CanonicalAddressFromRuntime(Some(c), a));
  }

  /** The link register of a branch anywhere in the image, its last instruction included, moves with the branch. */
  lemma {:induction false} LinkFollowsBranch(c: Context, branch: Address)
    requires WellPlaced(c) && InRange(branch, c.runtimeBase, c.imageSize) && branch + 4 <= c.runtimeBase + c.imageSize
    ensures branch + 4 < ADDRESSES
    ensures CanonicalLinkAddressFromRuntime(Some(c), branch + 4) == CanonicalAddressFromRuntime(Some(c), branch) + 4
  {
    TranslationsAreOffsets(c, branch);
  }

  /**
   The two translations differ at one address only, one past the loaded image, and there exactly when
   the plain translation does not happen to give the linked image end: when nothing of the module
   starts there, that is when it is left where it is and the module was moved, and when the BSS does.
   */
  lemma {:induction false} LinkDiffersOnlyPastImage(c: Context, a: Address)
    requires WellPlaced(c)
    ensures CanonicalLinkAddressFromRuntime(Some(c), a) != CanonicalAddressFromRuntime(Some(c), a) <==>
              && a == c.runtimeBase + c.imageSize
              && (if c.bssSize != 0 && a == c.runtimeBssBase then c.canonicalBssBase != c.canonicalBase + c.imageSize
                  else c.canonicalBase != c.runtimeBase)
  {
    TranslationsAreOffsets(c, a);
  }
}
