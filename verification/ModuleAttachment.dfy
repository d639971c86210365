/**
 When a module instance is admitted, in terms of the addresses it would occupy and of what the guest's
 memory shows at that moment, and what becomes of the instances that are no longer there.
 */
module ModuleAttachment {
  import opened AddressSpace
  import opened Wrappers
  import opened DynamicModules

  predicate Within(x: int, base: Address, size: Address) { base <= x < base + size }

  /** x is one of the addresses of the image, or of the BSS if there is one. */
  predicate Occupies(t: Template, base: Address, bssBase: Address, x: int) {
    Within(x, base, t.imageSize) || (t.bssSize != 0 && Within(x, bssBase, t.bssSize))
  }

  ghost predicate ShareAnAddress(t: Template, base: Address, bssBase: Address, other: Instance) {
    exists x :: Occupies(t, base, bssBase, x) && Occupies(other.template, other.base, other.bssBase, x)
  }

  /** The full check finds the instance in guest memory where it was attached. */
  predicate Seen(g: Guest, i: Instance) {
    g.validate(i.template, i.base) == Some(Layout(i.base, i.bssBase))
  }

  /** The range from base on, of this size, ends below the top of the address space. */
  predicate EndsInside(base: Address, size: Address) { base + size < 0x1_0000_0000 }

  /** The guest shows an instance of t at base whose image and BSS both end inside the address space, apart. */
  ghost predicate Placeable(g: Guest, t: Template, base: Address) {
    var layout := g.validate(t, base);
    && layout.Some? && layout.value.imageBase == base && EndsInside(base, t.imageSize)
    && (t.bssSize != 0 ==>
          && layout.value.bssBase != 0 && EndsInside(layout.value.bssBase, t.bssSize)
          && !exists x :: Within(x, base, t.imageSize) && Within(x, layout.value.bssBase, t.bssSize))
  }

  lemma {:induction false} ConflictMeansSharedAddress(t: Template, base: Address, bssBase: Address, other: Instance)
    requires t.imageSize > 0 && other.template.imageSize > 0
    ensures Conflict(t, base, bssBase, other) <==> ShareAnAddress(t, base, bssBase, other)
  {
    hide RangesOverlap;
    var u := other.template;
    OverlapMeansSharedAddress(base, t.imageSize, other.base, u.imageSize);
    if u.bssSize != 0 {
      OverlapMeansSharedAddress(base, t.imageSize, other.bssBase, u.bssSize);
    }
    if t.bssSize != 0 {
      OverlapMeansSharedAddress(bssBase, t.bssSize, other.base, u.imageSize);
    }
    if t.bssSize != 0 && u.bssSize != 0 {
      OverlapMeansSharedAddress(bssBase, t.bssSize, other.bssBase, u.bssSize);
    }
    SharedAddress(t, base, bssBase, other);
  }

  /** A shared address lies in one range of each. */
  lemma {:induction false} SharedAddress(t: Template, base: Address, bssBase: Address, other: Instance)
    ensures var u := other.template;
            ShareAnAddress(t, base, bssBase, other) <==>
              || (exists x: int :: InRange(x, base, t.imageSize) && InRange(x, other.base, u.imageSize))
              || (u.bssSize != 0 &&
                  exists x: int :: InRange(x, base, t.imageSize) && InRange(x, other.bssBase, u.bssSize))
              || (t.bssSize != 0 &&
                  exists x: int :: InRange(x, bssBase, t.bssSize) && InRange(x, other.base, u.imageSize))
              || (t.bssSize != 0 && u.bssSize != 0 &&
                  exists x: int :: InRange(x, bssBase, t.bssSize) && InRange(x, other.bssBase, u.bssSize))
  {
    var u := other.template;
    forall x: int
      ensures Occupies(t, base, bssBase, x) <==>
              InRange(x, base, t.imageSize) || (t.bssSize != 0 && InRange(x, bssBase, t.bssSize))
      ensures Occupies(u, other.base, other.bssBase, x) <==>
              InRange(x, other.base, u.imageSize) || (u.bssSize != 0 && InRange(x, other.bssBase, u.bssSize))
    {
    }
    hide Occupies, InRange;
  }

  lemma {:induction false} FitsWhenPlaceable(g: Guest, t: Template, base: Address)
    requires t.imageSize > 0
    ensures Placeable(g, t, base) <==> g.validate(t, base).Some? && Fits(t, base, g.validate(t, base).value)
  {
    var layout := g.validate(t, base);
    if layout.Some? && t.bssSize != 0 {
      OverlapMeansSharedAddress(base, t.imageSize, layout.value.bssBase, t.bssSize);
      assert forall x :: Within(x, base, t.imageSize) <==> InRange(x, base, t.imageSize);
    }
  }

  /** Nothing that the guest still shows, the instance to be replaced apart, shares an address with the newcomer. */
  ghost predicate Unobstructed(s: State, g: Guest, t: Template, base: Address, bssBase: Address,
                               replaceSameBase: bool)
  {
    forall b :: b in s.instances && Seen(g, s.instances[b]) && !(replaceSameBase && b == base) ==>
      !ShareAnAddress(t, base, bssBase, s.instances[b])
  }

  lemma {:induction false} ConflictFreeWhenUnobstructed(s: State, g: Guest, t: Template, base: Address,
                                                        bssBase: Address, replaceSameBase: bool)
    requires Sound(s) && t.imageSize > 0
    ensures Unobstructed(s, g, t, base, bssBase, replaceSameBase) <==>
            var kept := Pruned(s.instances, g);
            ConflictFree(t, base, bssBase, kept, replaceSameBase) && (replaceSameBase || base !in kept)
  {
    hide ShareAnAddress, Conflict, Fits;
    forall b | b in s.instances
      ensures Conflict(t, base, bssBase, s.instances[b]) <==> ShareAnAddress(t, base, bssBase, s.instances[b])
      ensures b == base ==> ShareAnAddress(t, base, bssBase, s.instances[b])
    {
      assert Admitted(s, b);
      ConflictMeansSharedAddress(t, base, bssBase, s.instances[b]);
      if b == base {
        SameBaseShares(t, base, bssBase, s.instances[b]);
      }
    }
    var kept := Pruned(s.instances, g);
    forall b ensures b in kept <==> b in s.instances && Seen(g, s.instances[b]) {
    }
  }

  lemma {:induction false} SameBaseShares(t: Template, base: Address, bssBase: Address, other: Instance)
    requires t.imageSize > 0 && other.template.imageSize > 0 && other.base == base
    ensures ShareAnAddress(t, base, bssBase, other)
  {
    assert Occupies(t, base, bssBase, base) && Occupies(other.template, other.base, other.bssBase, base);
  }

  /** Of the instances in s, exactly those the guest still shows are in kept, unchanged. */
  ghost predicate OnlySeen(s: State, g: Guest, kept: Instances) {
    && (forall b :: b in kept <==> b in s.instances && Seen(g, s.instances[b]))
    && (forall b :: b in kept ==> kept[b] == s.instances[b])
  }

  lemma {:induction false} PrunedIsSeen(s: State, g: Guest)
    ensures OnlySeen(s, g, Pruned(s.instances, g))
  {
  }

  /**
   An attachment succeeds if and only if the template is registered, the guest shows it at the base with
   room for both ranges, and nothing else the guest still shows shares an address with it. It then adds that
   one instance, under a generation of its own, to those still shown. A refusal for the sake of another
   instance still drops the stale ones; any earlier refusal changes nothing.
   */
  lemma {:induction false} AttachSucceedsExactly(s: State, g: Guest, t: Template, base: Address, replaceSameBase: bool)
    requires Sound(s)
    ensures var (s', token) := Attach(s, g, t, base, replaceSameBase);
            var known := t in s.templates && Placeable(g, t, base);
            && (token.Some? <==>
                  known && Unobstructed(s, g, t, base, g.validate(t, base).value.bssBase, replaceSameBase))
            && s'.templates == s.templates
            && (!known ==> s' == s)
            && (known ==> exists kept ::
                  && OnlySeen(s, g, kept)
                  && if token.Some? then
                       && token.value == Token(t, base, s.nextGeneration)
                       && s'.nextGeneration == s.nextGeneration + 1
                       && s'.instances
                          == kept[base := Instance(t, base, g.validate(t, base).value.bssBase, s.nextGeneration)]
                     else s'.instances == kept && s'.nextGeneration == s.nextGeneration)
  {
    hide Placeable, Unobstructed, Fits, ConflictFree, Pruned, OnlySeen, Sound;
    PrunedIsSeen(s, g);
    if t in s.templates {
      RegisteredHasAnImage(s, t);
      FitsWhenPlaceable(g, t, base);
      if g.validate(t, base).Some? {
        ConflictFreeWhenUnobstructed(s, g, t, base, g.validate(t, base).value.bssBase, replaceSameBase);
      }
    }
  }

  lemma {:induction false} RegisteredHasAnImage(s: State, t: Template)
    requires Sound(s) && t in s.templates
    ensures t.imageSize > 0
  {
  }

  /** An instance the guest no longer shows is gone after any attachment that gets as far as looking. */
  lemma {:induction false} StaleInstancesGo(s: State, g: Guest, t: Template, base: Address, replaceSameBase: bool,
                                            b: Address)
    requires Sound(s) && t in s.templates && Placeable(g, t, base)
    requires b in s.instances && !Seen(g, s.instances[b])
    ensures var s' := Attach(s, g, t, base, replaceSameBase).0;
            b in s'.instances ==> b == base && s'.instances[b].generation >= s.nextGeneration
  {
    hide Placeable, Unobstructed, Attach, Sound;
    AttachSucceedsExactly(s, g, t, base, replaceSameBase);
  }

  // ---------------------------------------------------------------- publication

  /** Discovery from the probed address finds an image of t in guest memory. */
  predicate Claims(g: Guest, t: Template, candidate: Address) {
    var layout := g.resolve(t, candidate);
    layout.Some? && layout.value.imageBase != 0
  }

  lemma {:induction false} ClaimantsClaim(s: State, g: Guest, candidate: Address)
    requires Sound(s)
    ensures var claimants := Claimants(s.templates, g, candidate);
            && (forall t :: t in claimants <==> t in s.templates && Claims(g, t, candidate))
            && (forall i, j :: 0 <= i < j < |claimants| ==> claimants[i] != claimants[j])
    ensures forall t :: Claims(g, t, candidate) ==> Claim(g, t, candidate) == g.resolve(t, candidate).value.imageBase
  {
    ClaimantsAreTemplates(s.templates, g, candidate);
  }

  /** t is the one registered template that claims the address. */
  ghost predicate SoleClaimant(s: State, g: Guest, candidate: Address, t: Template) {
    t in s.templates && Claims(g, t, candidate) && forall u :: u in s.templates && Claims(g, u, candidate) ==> u == t
  }

  lemma {:induction false} OneClaimant(s: State, g: Guest, candidate: Address, t: Template)
    requires Sound(s) && SoleClaimant(s, g, candidate, t)
    ensures Claimants(s.templates, g, candidate) == [t]
  {
    hide Claims, Sound;
    var claimants := Claimants(s.templates, g, candidate);
    ClaimantsClaim(s, g, candidate);
    assert t in claimants;
    forall i | 0 <= i < |claimants| ensures claimants[i] == t {
      assert claimants[i] in claimants;
    }
    OneOrTwice(claimants, t);
  }

  lemma {:induction false} OneOrTwice(ts: seq<Template>, t: Template)
    requires ts != [] && forall i :: 0 <= i < |ts| ==> ts[i] == t
    ensures ts == [t] || (|ts| > 1 && ts[0] == ts[1])
  {
  }

  lemma {:induction false} OneIsSole(s: State, g: Guest, candidate: Address)
    requires Sound(s)
    ensures var claimants := Claimants(s.templates, g, candidate);
            |claimants| == 1 ==> SoleClaimant(s, g, candidate, claimants[0])
  {
    hide Claims, Sound, Claimants;
    ClaimantsClaim(s, g, candidate);
    var claimants := Claimants(s.templates, g, candidate);
    assert |claimants| == 1 ==> forall u :: u in claimants ==> u == claimants[0];
    assert |claimants| == 1 ==> claimants[0] in claimants;
  }

  /**
   A publication that exactly one registered template claims attaches it where it was found, in place of what
   was attached at that base, and succeeds if and only if it can be attached there.
   */
  lemma {:induction false} SoleClaimantIsAttached(s: State, g: Guest, candidate: Address, t: Template)
    requires Sound(s) && SoleClaimant(s, g, candidate, t)
    ensures var base := g.resolve(t, candidate).value.imageBase;
            && Publish(s, g, candidate).0 == Attach(s, g, t, base, true).0
            && (Publish(s, g, candidate).1 <==>
                  Placeable(g, t, base) && Unobstructed(s, g, t, base, g.validate(t, base).value.bssBase, true))
  {
    hide Placeable, Unobstructed, Attach, Sound, Claimants;
    OneClaimant(s, g, candidate, t);
    AttachSucceedsExactly(s, g, t, Claim(g, t, candidate), true);
  }

  /**
   Any other publication fails: when nothing claims the address nothing changes, and when several templates do
   no instance is added and those at two of the claimed bases are gone.
   */
  lemma {:induction false} OtherPublicationsFail(s: State, g: Guest, candidate: Address)
    requires Sound(s) && forall t :: !SoleClaimant(s, g, candidate, t)
    ensures var (s', ok) := Publish(s, g, candidate);
            && !ok
            && (s' == s || TwoBasesRetired(s, s', g, candidate))
            && ((forall t :: t in s.templates ==> !Claims(g, t, candidate)) ==> s' == s)
  {
    hide Claims, Attach, Sound, TwoBasesRetired;
    var claimants := Claimants(s.templates, g, candidate);
    ClaimantsClaim(s, g, candidate);
    OneIsSole(s, g, candidate);
    if |claimants| > 1 {
      assert claimants[0] in claimants && claimants[1] in claimants && claimants[0] != claimants[1];
      RetiresTwo(s, g, candidate, claimants[0], claimants[1]);
    }
  }

  /** The instances of s but for those at the bases that two claiming templates claim. */
  ghost predicate TwoBasesRetired(s: State, s': State, g: Guest, candidate: Address) {
    exists t, u :: Retired(s, s', g, candidate, t, u)
  }

  ghost predicate Retired(s: State, s': State, g: Guest, candidate: Address, t: Template, u: Template) {
    && t in s.templates && u in s.templates && t != u && Claims(g, t, candidate) && Claims(g, u, candidate)
    && s' == s.(instances := s.instances - {g.resolve(t, candidate).value.imageBase,
                                            g.resolve(u, candidate).value.imageBase})
  }

  lemma {:induction false} RetiresTwo(s: State, g: Guest, candidate: Address, t: Template, u: Template)
    requires t in s.templates && u in s.templates && t != u && Claims(g, t, candidate) && Claims(g, u, candidate)
    ensures TwoBasesRetired(s, s.(instances := s.instances - {Claim(g, t, candidate), Claim(g, u, candidate)}), g,
                            candidate)
  {
    assert Retired(s, s.(instances := s.instances - {Claim(g, t, candidate), Claim(g, u, candidate)}), g, candidate,
                   t, u);
  }
}
