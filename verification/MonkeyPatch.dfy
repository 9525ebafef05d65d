/** Stacks of monkey patches and the translation patch (common/djangoapps/monkey_patch). */
module MonkeyPatch {
  import opened Wrappers

  /** The two string types of the translation functions. */
  datatype Text = Bytes(s: string) | Unicode(s: string)

  /** Attribute names; the translation patch touches the first two. */
  datatype Name = Gettext | Ugettext | OtherName(text: string)

  /** What a module attribute does when called: translate, or guard another function against empty input. */
  datatype Behaviour = Translates | Guards(inner: Attribute, default: Text)

  class Attribute {
    const behaviour: Behaviour
    /** how many guards deep */
    ghost const depth: nat
    /** the backup attribute; null if it was never set */
    var backup: Attribute?

    constructor Original()
      ensures behaviour == Translates && depth == 0 && backup == null
    {
      behaviour, depth, backup := Translates, 0, null;
    }

    /** `decorate(function, message_default)` */
    constructor Decorate(inner: Attribute, default: Text)
      ensures behaviour == Guards(inner, default) && depth == inner.depth + 1 && backup == null
    {
      behaviour, depth, backup := Guards(inner, default), inner.depth + 1, null;
    }
  }

  /** Calling an attribute whose original translates by `translate`. */
  ghost function Call(a: Attribute, message: string, translate: string -> Text): Text
    decreases a.depth
  {
    match a.behaviour
    case Translates => translate(message)
    case Guards(inner, default) =>
      if message == "" then default
      else if inner.depth < a.depth then Call(inner, message, translate) else default
  }

  /** The backup attribute of each function. */
  type Links = map<Attribute, Attribute?>

  ghost predicate LeadsOn(links: Links, chain: seq<Attribute>, i: nat)
    requires i + 1 < |chain|
  {
    chain[i] in links && links[chain[i]] == chain[i + 1]
  }

  /** Following backups from the first attribute visits exactly these and ends at the last. */
  ghost predicate Linked(links: Links, chain: seq<Attribute>) {
    && chain != [] && chain[|chain| - 1] in links && links[chain[|chain| - 1]] == null
    && forall i :: 0 <= i < |chain| - 1 ==> LeadsOn(links, chain, i)
  }

  /** Attributes that lead back to the first one. */
  ghost predicate Cyclic(links: Links, cycle: seq<Attribute>) {
    && cycle != [] && cycle[|cycle| - 1] in links && links[cycle[|cycle| - 1]] == cycle[0]
    && forall i :: 0 <= i < |cycle| - 1 ==> LeadsOn(links, cycle, i)
  }

  /** No finite chain of backups starts on a cycle. */
  lemma {:induction false} CycleNeverEnds(links: Links, cycle: seq<Attribute>, chain: seq<Attribute>)
    requires Cyclic(links, cycle) && Linked(links, chain)
    ensures chain[0] != cycle[0]
    decreases |chain|
  {
    if chain[0] == cycle[0] {
      FollowsCycle(links, cycle, chain, |cycle| - 1);
      assert LeadsOn(links, chain, |cycle| - 1);
      LinkedSuffix(links, chain, |cycle|);
      CycleNeverEnds(links, cycle, chain[|cycle|..]);
    }
  }

  lemma {:induction false} FollowsCycle(links: Links, cycle: seq<Attribute>, chain: seq<Attribute>, i: nat)
    requires Cyclic(links, cycle) && Linked(links, chain) && chain[0] == cycle[0] && i < |cycle|
    ensures i + 1 < |chain| && chain[i] == cycle[i]
  {
    if i > 0 {
      FollowsCycle(links, cycle, chain, i - 1);
      assert LeadsOn(links, cycle, i - 1) && LeadsOn(links, chain, i - 1);
    }
    assert i < |cycle| - 1 ==> LeadsOn(links, cycle, i);
  }

  lemma LinkedSuffix(links: Links, chain: seq<Attribute>, k: nat)
    requires Linked(links, chain) && k < |chain|
    ensures Linked(links, chain[k..])
  {
    forall i | 0 <= i < |chain[k..]| - 1
      ensures LeadsOn(links, chain[k..], i)
    {
      assert LeadsOn(links, chain, k + i);
    }
  }

  /** What an unpatch leaves of a stack. */
  function Popped<T>(stack: seq<T>): seq<T> {
    if |stack| > 1 then stack[1..] else stack
  }

  lemma LinkedTail(links: Links, chain: seq<Attribute>)
    requires Linked(links, chain)
    ensures chain[0] in links && (|chain| > 1 <==> links[chain[0]] != null)
    ensures |chain| > 1 ==> links[chain[0]] == chain[1] && Linked(links, chain[1..])
  {
    if |chain| > 1 {
      assert LeadsOn(links, chain, 0);
      LinkedSuffix(links, chain, 1);
    }
  }

  /** No chain of backups visits a function twice. */
  lemma LinkedDistinct(links: Links, chain: seq<Attribute>, i: nat, j: nat)
    requires Linked(links, chain) && i < j < |chain|
    ensures chain[i] != chain[j]
  {
    if chain[i] == chain[j] {
      var cycle := chain[i..j];
      forall k | 0 <= k < |cycle| - 1
        ensures LeadsOn(links, cycle, k)
      {
        assert LeadsOn(links, chain, i + k);
      }
      assert LeadsOn(links, chain, j - 1);
      LinkedSuffix(links, chain, i);
      CycleNeverEnds(links, cycle, chain[i..]);
    }
  }

  /** A chain of functions stays one when the backup of `a` is set to `b`, unless it went elsewhere from `a`. */
  lemma Diverted(links: Links, chain: seq<Attribute>, a: Attribute, b: Attribute)
    requires Linked(links, chain)
    ensures Linked(links[a := b], chain) <==> a !in chain || (a in links && links[a] == b)
  {
    var after := links[a := b];
    if a !in chain || (a in links && links[a] == b) {
      forall i | 0 <= i < |chain| - 1
        ensures LeadsOn(after, chain, i)
      {
        assert LeadsOn(links, chain, i);
      }
    } else {
      var k := FirstIndex(chain, a);
      if k < |chain| - 1 {
        assert LeadsOn(links, chain, k) && !LeadsOn(after, chain, k);
      }
    }
  }

  /** A function put on top of a chain is on an endless one exactly if it was there already. */
  lemma Pushed(links: Links, chain: seq<Attribute>, a: Attribute)
    requires Linked(links, chain)
    ensures Linked(links[a := chain[0]], [a] + chain) <==> a !in chain
    ensures a in chain ==> forall other :: Linked(links[a := chain[0]], other) ==> other[0] != a
  {
    var after := links[a := chain[0]];
    if a in chain {
      var k := FirstIndex(chain, a);
      var cycle := [a] + chain[..k];
      forall i | 0 <= i < k
        ensures LeadsOn(after, cycle, i)
      {
        assert i > 0 ==> LeadsOn(links, chain, i - 1);
      }
      assert k > 0 ==> LeadsOn(links, chain, k - 1);
      forall other | Linked(after, other)
        ensures other[0] != a
      {
        CycleNeverEnds(after, cycle, other);
      }
      assert ([a] + chain)[0] == a;
    } else {
      Diverted(links, chain, a, chain[0]);
      var pushed := [a] + chain;
      forall i | 0 <= i < |pushed| - 1
        ensures LeadsOn(after, pushed, i)
      {
        assert i > 0 ==> LeadsOn(after, chain, i - 1);
      }
    }
  }

  ghost predicate AllLinked(links: Links, stacks: map<Name, seq<Attribute>>) {
    forall name :: name in stacks ==> Linked(links, stacks[name])
  }

  /**
    Whether patching `name` by `a` leaves an attribute with a chain of backups: its own if `a` is new to it,
    another one's also if `a` stands just above the patched function there.
   */
  ghost predicate Spared(links: Links, stacks: map<Name, seq<Attribute>>, other: Name, name: Name, a: Attribute)
    requires name in stacks && stacks[name] != [] && other in stacks
  {
    a !in stacks[other] || (other != name && a in links && links[a] == stacks[name][0])
  }

  /** A patch leaves an attribute with its chain exactly if that is spared; the patched one then has none at all. */
  lemma LinkedExactly(links: Links, stacks: map<Name, seq<Attribute>>, name: Name, a: Attribute)
    requires AllLinked(links, stacks) && name in stacks
    ensures var links', stacks' := links[a := stacks[name][0]], stacks[name := [a] + stacks[name]];
            && (forall other :: other in stacks ==>
                  (Linked(links', stacks'[other]) <==> Spared(links, stacks, other, name, a)))
            && (a in stacks[name] ==> forall chain :: Linked(links', chain) ==> chain[0] != a)
  {
    Pushed(links, stacks[name], a);
    forall other | other in stacks && other != name
      ensures Linked(links[a := stacks[name][0]], stacks[other]) <==> Spared(links, stacks, other, name, a)
    {
      Diverted(links, stacks[other], a, stacks[name][0]);
    }
  }

  lemma NewKeepsLinked(links: Links, stacks: map<Name, seq<Attribute>>, name: Name, a: Attribute)
    requires AllLinked(links, stacks) && name in stacks && forall other :: other in stacks ==> a !in stacks[other]
    ensures AllLinked(links[a := stacks[name][0]], stacks[name := [a] + stacks[name]])
  {
    LinkedExactly(links, stacks, name, a);
  }

  /** The attribute's stack is this one now, and all others are as they were. */
  ghost predicate OnlyNow(before: map<Name, seq<Attribute>>, after: map<Name, seq<Attribute>>, name: Name,
                          stack: seq<Attribute>)
    requires name in before
  {
    && after.Keys == before.Keys && after[name] == stack
    && forall other :: other in before && other != name ==> after[other] == before[other]
  }

  lemma LinkedPop(links: Links, stacks: map<Name, seq<Attribute>>, name: Name)
    requires AllLinked(links, stacks) && name in stacks
    ensures var stack := stacks[name];
            && AllLinked(links, stacks[name := Popped(stack)])
            && OnlyNow(stacks, stacks[name := Popped(stack)], name, Popped(stack))
            && stack[0] in links && (links[stack[0]] != null <==> |stack| > 1)
            && (if |stack| > 1 then Popped(stack)[0] == links[stack[0]] else Popped(stack) == stack)
  {
    LinkedTail(links, stacks[name]);
  }

  predicate OnTop(attrs: map<Name, Attribute>, stacks: map<Name, seq<Attribute>>) {
    && attrs.Keys == stacks.Keys
    && forall name :: name in stacks ==> stacks[name] != [] && stacks[name][0] == attrs[name]
  }

  lemma BackAsBefore(attrs: map<Name, Attribute>, stacks: map<Name, seq<Attribute>>, attrs': map<Name, Attribute>,
                     stacks': map<Name, seq<Attribute>>, name: Name)
    requires OnTop(attrs, stacks) && OnTop(attrs', stacks') && name in stacks
    requires OnlyNow(stacks, stacks', name, stacks[name])
    ensures stacks' == stacks && attrs' == attrs
  {
  }

  class Module {
    var attrs: map<Name, Attribute>
    /** the backups of every function that is or was on an attribute */
    ghost var links: Links
    /** for each attribute, the present one and what it patched, down to the original */
    ghost var stacks: map<Name, seq<Attribute>>

    ghost predicate OnNoChain(a: Attribute)
      reads this
    {
      forall name :: name in stacks ==> a !in stacks[name]
    }

    /** The ghost fields tell the truth about the heap. */
    ghost predicate Tracked()
      reads this, links.Keys
    {
      && (forall a :: a in links ==> a.backup == links[a] && (a.backup == null || a.backup in links))
      && OnTop(attrs, stacks) && forall name :: name in attrs ==> attrs[name] in links
    }

    /** Every attribute leads to an original. */
    ghost predicate Valid()
      reads this, links.Keys
    {
      Tracked() && AllLinked(links, stacks)
    }

    constructor (attrs: map<Name, Attribute>)
      requires forall name :: name in attrs ==> attrs[name].backup == null
      ensures Valid() && this.attrs == attrs && stacks == map name | name in attrs :: [attrs[name]]
    {
      this.attrs := attrs;
      links := map a | a in attrs.Values :: null;
      stacks := map name | name in attrs :: [attrs[name]];
    }

    method IsPatched(name: Name) returns (patched: bool)
      requires Tracked() && name in attrs
      ensures patched <==> links[attrs[name]] != null
      ensures Valid() ==> (patched <==> |stacks[name]| > 1)
    {
      if Valid() {
        LinkedTail(links, stacks[name]);
      }
      patched := attrs[name].backup != null;
    }

    /**
      A replacement already on this attribute's chain closes a cycle: no number of unpatches then gets back
      to an original. One on another attribute's chain diverts that chain.
     */
    method Patch(name: Name, replacement: Attribute) returns (patched: bool)
      requires Tracked() && name in attrs
      modifies this, replacement
      ensures Tracked() && patched && attrs == old(attrs)[name := replacement]
      ensures links == old(links)[replacement := old(attrs)[name]]
      ensures stacks == old(stacks)[name := [replacement] + old(stacks)[name]]
      ensures AllLinked(old(links), old(stacks)) ==>
                && (forall other :: other in stacks ==>
                      (Linked(links, stacks[other]) <==> Spared(old(links), old(stacks), other, name, replacement)))
                && (replacement in old(stacks)[name] ==>
                    forall chain :: Linked(links, chain) ==> chain[0] != attrs[name])
      ensures old(Valid()) && old(OnNoChain(replacement)) ==> Valid()
    {
      SetBoth(name, replacement);
      if AllLinked(old(links), old(stacks)) {
        LinkedExactly(old(links), old(stacks), name, replacement);
        if old(OnNoChain(replacement)) {
          NewKeepsLinked(old(links), old(stacks), name, replacement);
        }
      }
      patched := attrs[name].backup != null;
    }

    /** The two assignments of a patch. */
    method SetBoth(name: Name, replacement: Attribute)
      requires Tracked() && name in attrs
      modifies this, replacement
      ensures Tracked() && attrs == old(attrs)[name := replacement]
      ensures links == old(links)[replacement := old(attrs)[name]] && replacement.backup == old(attrs)[name]
      ensures stacks == old(stacks)[name := [replacement] + old(stacks)[name]]
    {
      var attribute := attrs[name];
      replacement.backup := attribute;
      attrs := attrs[name := replacement];
      links, stacks := links[replacement := attribute], stacks[name := [replacement] + stacks[name]];
    }

    /** The latest patch is popped; an original is left alone. */
    method Unpatch(name: Name) returns (wasPatched: bool)
      requires Tracked() && name in attrs
      modifies this
      ensures Tracked() && links == old(links) && (wasPatched <==> links[old(attrs)[name]] != null)
      ensures attrs == if wasPatched then old(attrs)[name := links[old(attrs)[name]]] else old(attrs)
      ensures old(Valid()) ==> Valid() && (wasPatched <==> |old(stacks)[name]| > 1)
      ensures old(Valid()) ==> OnlyNow(old(stacks), stacks, name, Popped(old(stacks)[name]))
    {
      wasPatched := false;
      var attribute := attrs[name];
      ghost var popped := [attribute];
      if AllLinked(links, stacks) {
        LinkedPop(links, stacks, name);
        popped := Popped(stacks[name]);
      } else if attribute.backup != null {
        popped := [attribute.backup];
      }
      if attribute.backup != null {
        SetTop(name, attribute.backup, popped);
        wasPatched := true;
      }
    }

    method SetTop(name: Name, attribute: Attribute, ghost stack: seq<Attribute>)
      requires Tracked() && name in attrs && attribute in links && stack != [] && stack[0] == attribute
      modifies this
      ensures Tracked() && links == old(links)
      ensures attrs == old(attrs)[name := attribute] && stacks == old(stacks)[name := stack]
    {
      attrs := attrs[name := attribute];
      stacks := stacks[name := stack];
    }

    method Apply(name: Name, op: Option<Attribute>)
      requires Valid() && name in attrs && (op.Some? ==> OnNoChain(op.value))
      modifies this, if op.Some? then {op.value} else {}
      ensures Valid() && OnlyNow(old(stacks), stacks, name, Applied(old(stacks)[name], op))
    {
      match op
      case Some(a) => var _ := Patch(name, a);
      case None => var _ := Unpatch(name);
    }

    /**
      Any interleaving of patches (by whatever functions, as long as each is on no chain when it goes on; one
      taken off may come back) and unpatches.
     */
    method Replay(name: Name, ops: seq<Option<Attribute>>, ghost patches: set<Attribute>)
      requires Valid() && name in attrs && Replayable(stacks, name, ops)
      requires forall i :: 0 <= i < |ops| && ops[i].Some? ==> ops[i].value in patches
      modifies this, patches
      ensures Valid() && OnlyNow(old(stacks), stacks, name, StackAfter(old(stacks)[name], ops))
      decreases |ops|
    {
      if ops != [] {
        Replay(name, ops[..|ops| - 1], patches);
        Apply(name, ops[|ops| - 1]);
      }
    }

    /** As many unpatches as patches put every attribute back. */
    method PatchAndUnpatch(name: Name, patches: seq<Attribute>)
      requires Valid() && name in attrs && forall i :: 0 <= i < |patches| ==> OnNoChain(patches[i])
      requires forall i, j :: 0 <= i < j < |patches| ==> patches[i] != patches[j]
      modifies this, set a | a in patches
      ensures Valid() && attrs == old(attrs) && stacks == old(stacks)
    {
      var ops := AllPatched(patches) + AllUnpatched(|patches|);
      PatchesThenUnpatches(stacks[name], patches, |patches|);
      PatchesReplayable(stacks, name, patches);
      UnpatchesReplayable(stacks, name, AllPatched(patches), |patches|);
      Replay(name, ops, set a | a in patches);
      BackAsBefore(old(attrs), old(stacks), attrs, stacks, name);
    }
  }

  /**
    Two attributes that were never patched: patching one with the other's function and unpatching the other
    swaps their functions, although the second was never patched itself.
   */
  method PatchAcross(mod: Module, name: Name, other: Name) returns (wasPatched: bool)
    requires mod.Valid() && name in mod.attrs && other in mod.attrs && mod.attrs[name] != mod.attrs[other]
    requires |mod.stacks[name]| == |mod.stacks[other]| == 1
    modifies mod, mod.attrs[other]
    ensures wasPatched
    ensures mod.attrs == old(mod.attrs)[name := old(mod.attrs)[other]][other := old(mod.attrs)[name]]
  {
    LinkedTail(mod.links, mod.stacks[other]);
    var _ := mod.Patch(name, mod.attrs[other]);
    wasPatched := mod.Unpatch(other);
  }

  /** The first place of an element. */
  ghost function FirstIndex<T>(s: seq<T>, x: T): (k: nat)
    requires x in s
    ensures k < |s| && s[k] == x && x !in s[..k]
  {
    if s[0] == x then 0
    else
      var k := FirstIndex(s[1..], x);
      assert s[..k + 1] == [s[0]] + s[1..][..k];
      k + 1
  }

  // ---------------------------------------------------------------- runs on one attribute

  function Applied(stack: seq<Attribute>, op: Option<Attribute>): seq<Attribute> {
    match op
    case Some(a) => [a] + stack
    case None => Popped(stack)
  }

  /** What patches (each by some function) and unpatches make of an attribute's stack. */
  ghost function StackAfter(stack: seq<Attribute>, ops: seq<Option<Attribute>>): (r: seq<Attribute>)
    requires stack != []
    ensures r != []
  {
    if ops == [] then stack
    else
      Applied(StackAfter(stack, ops[..|ops| - 1]), ops[|ops| - 1])
  }

  /** Each function is on no chain when it goes on the attribute's. */
  ghost predicate Replayable(stacks: map<Name, seq<Attribute>>, name: Name, ops: seq<Option<Attribute>>)
    requires name in stacks && stacks[name] != []
  {
    ops == [] ||
    var init, op := ops[..|ops| - 1], ops[|ops| - 1];
    && Replayable(stacks, name, init)
    && (op.Some? ==> op.value !in StackAfter(stacks[name], init) && NotOnOthers(stacks, name, op.value))
  }

  predicate NotOnOthers(stacks: map<Name, seq<Attribute>>, name: Name, a: Attribute) {
    forall other :: other in stacks && other != name ==> a !in stacks[other]
  }

  function Kinds(ops: seq<Option<Attribute>>): seq<bool> {
    seq(|ops|, i requires 0 <= i < |ops| => ops[i].Some?)
  }

  lemma KindsInit(ops: seq<Option<Attribute>>)
    requires ops != []
    ensures Kinds(ops)[..|ops| - 1] == Kinds(ops[..|ops| - 1])
  {
  }

  /** The stack is as high as patches and unpatches alone tell. */
  lemma {:induction false} HeightTold(stack: seq<Attribute>, ops: seq<Option<Attribute>>)
    requires stack != []
    ensures |StackAfter(stack, ops)| == Height(|stack|, Kinds(ops))
  {
    if ops != [] {
      KindsInit(ops);
      HeightTold(stack, ops[..|ops| - 1]);
    }
  }

  /** The functions below the lowest level reached are the ones that were there. */
  lemma {:induction false} BottomStays(stack: seq<Attribute>, ops: seq<Option<Attribute>>)
    requires stack != []
    ensures var low, after := LowWater(|stack|, Kinds(ops)), StackAfter(stack, ops);
            low <= |after| && Bottom(after, low) == Bottom(stack, low)
  {
    HeightTold(stack, ops);
    if ops != [] {
      var init := ops[..|ops| - 1];
      KindsInit(ops);
      HeightTold(stack, init);
      BottomStays(stack, init);
      BottomApplied(stack, StackAfter(stack, init), ops[|ops| - 1], LowWater(|stack|, Kinds(init)),
                    LowWater(|stack|, Kinds(ops)));
    }
  }

  lemma BottomApplied(stack: seq<Attribute>, before: seq<Attribute>, op: Option<Attribute>, low: nat, low': nat)
    requires low' <= low <= |stack| && low <= |before| && low' <= |Applied(before, op)|
    requires Bottom(before, low) == Bottom(stack, low)
    ensures Bottom(Applied(before, op), low') == Bottom(stack, low')
  {
    assert op.Some? ==> Applied(before, op)[1..] == before;
    BottomStep(stack, before, Applied(before, op), low, low');
  }

  /** So the original is always the last of them. */
  lemma OriginalStays(stack: seq<Attribute>, ops: seq<Option<Attribute>>)
    requires stack != []
    ensures StackAfter(stack, ops)[|StackAfter(stack, ops)| - 1] == stack[|stack| - 1]
  {
    BottomStays(stack, ops);
    EndAlike(StackAfter(stack, ops), stack, LowWater(|stack|, Kinds(ops)));
  }

  lemma EndAlike<T>(a: seq<T>, b: seq<T>, n: nat)
    requires 0 < n <= |a| && n <= |b| && Bottom(a, n) == Bottom(b, n)
    ensures a[|a| - 1] == b[|b| - 1]
  {
    assert Bottom(a, n)[n - 1] == Bottom(b, n)[n - 1];
  }

  /** Any run that comes back to its start's height without dipping below it leaves the very stack it found. */
  lemma BalancedRestores(stack: seq<Attribute>, ops: seq<Option<Attribute>>)
    requires Level(|stack|, Kinds(ops))
    ensures StackAfter(stack, ops) == stack
  {
    HeightTold(stack, ops);
    BottomStays(stack, ops);
  }

  function AllPatched(patches: seq<Attribute>): seq<Option<Attribute>> {
    seq(|patches|, i requires 0 <= i < |patches| => Some(patches[i]))
  }

  function AllUnpatched(n: nat): seq<Option<Attribute>> {
    seq(n, i requires 0 <= i < n => None)
  }

  /** `n` patches followed by at most `n` unpatches leave the earlier patches in place. */
  lemma {:induction false} PatchesThenUnpatches(stack: seq<Attribute>, patches: seq<Attribute>, n: nat)
    requires stack != [] && n <= |patches|
    ensures StackAfter(stack, AllPatched(patches) + AllUnpatched(n)) ==
            StackAfter(stack, AllPatched(patches[..|patches| - n]))
    decreases n
  {
    if n == 0 {
      assert AllPatched(patches) + AllUnpatched(n) == AllPatched(patches) && patches[..|patches|] == patches;
    } else {
      var rest := patches[..|patches| - n + 1];
      PatchesThenUnpatches(stack, patches, n - 1);
      OneMoreUnpatch(stack, AllPatched(patches), n);
      LastPatch(stack, rest);
      assert rest[..|rest| - 1] == patches[..|patches| - n];
    }
  }

  lemma OneMoreUnpatch(stack: seq<Attribute>, ops: seq<Option<Attribute>>, n: nat)
    requires stack != [] && n > 0
    ensures StackAfter(stack, ops + AllUnpatched(n)) == Popped(StackAfter(stack, ops + AllUnpatched(n - 1)))
  {
    var all := ops + AllUnpatched(n);
    assert all[..|all| - 1] == ops + AllUnpatched(n - 1);
  }

  lemma LastPatch(stack: seq<Attribute>, patches: seq<Attribute>)
    requires stack != [] && patches != []
    ensures Popped(StackAfter(stack, AllPatched(patches))) == StackAfter(stack, AllPatched(patches[..|patches| - 1]))
  {
    assert AllPatched(patches)[..|patches| - 1] == AllPatched(patches[..|patches| - 1]);
  }

  lemma {:induction false} PatchesPile(stack: seq<Attribute>, patches: seq<Attribute>, a: Attribute)
    requires stack != []
    ensures a in StackAfter(stack, AllPatched(patches)) <==> a in stack || a in patches
  {
    if patches != [] {
      var init := patches[..|patches| - 1];
      assert AllPatched(patches)[..|init|] == AllPatched(init);
      PatchesPile(stack, init, a);
      assert patches == init + [patches[|init|]];
    }
  }

  lemma {:induction false} PatchesReplayable(stacks: map<Name, seq<Attribute>>, name: Name, patches: seq<Attribute>)
    requires name in stacks && stacks[name] != []
    requires forall i :: 0 <= i < |patches| ==> patches[i] !in stacks[name] && NotOnOthers(stacks, name, patches[i])
    requires forall i, j :: 0 <= i < j < |patches| ==> patches[i] != patches[j]
    ensures Replayable(stacks, name, AllPatched(patches))
  {
    if patches != [] {
      var init, last := patches[..|patches| - 1], patches[|patches| - 1];
      PatchesReplayable(stacks, name, init);
      assert AllPatched(patches)[..|patches| - 1] == AllPatched(init);
      PatchesPile(stacks[name], init, last);
    }
  }

  lemma {:induction false} UnpatchesReplayable(stacks: map<Name, seq<Attribute>>, name: Name,
                                               ops: seq<Option<Attribute>>, n: nat)
    requires name in stacks && stacks[name] != [] && Replayable(stacks, name, ops)
    ensures Replayable(stacks, name, ops + AllUnpatched(n))
  {
    var all := ops + AllUnpatched(n);
    if n == 0 {
      assert all == ops;
    } else {
      UnpatchesReplayable(stacks, name, ops, n - 1);
      assert all[..|all| - 1] == ops + AllUnpatched(n - 1);
    }
  }

  // ---------------------------------------------------------------- the translation patch

  /** A patch guards the one below it. */
  ghost predicate GuardsNext(stack: seq<Attribute>, i: nat, default: Text)
    requires i + 1 < |stack|
  {
    stack[i].behaviour == Guards(stack[i + 1], default) && stack[i + 1].depth < stack[i].depth
  }

  /** All patches do, down to the original. */
  ghost predicate Guarded(stack: seq<Attribute>, default: Text) {
    && stack != [] && stack[|stack| - 1].behaviour == Translates
    && forall i :: 0 <= i < |stack| - 1 ==> GuardsNext(stack, i, default)
  }

  /** At every depth of patching: the default on empty input, the original's answer otherwise. */
  lemma {:induction false} GuardedCall(stack: seq<Attribute>, default: Text, message: string, translate: string -> Text)
    requires Guarded(stack, default)
    ensures Call(stack[0], message, translate) == if message == "" && |stack| > 1 then default else translate(message)
    decreases |stack|
  {
    if |stack| > 1 {
      GuardedPop(stack, default);
      assert GuardsNext(stack, 0, default);
      GuardedCall(stack[1..], default, message, translate);
    }
  }

  /** The empty text a translation function returns: `gettext` gives bytes. */
  function Default(name: Name): Text {
    if name == Gettext then Bytes("") else Unicode("")
  }

  class Translation {
    const mod: Module

    ghost predicate Valid()
      reads this, mod, mod.links.Keys
    {
      && mod.Valid() && Gettext in mod.stacks && Ugettext in mod.stacks
      && Guarded(mod.stacks[Gettext], Default(Gettext)) && Guarded(mod.stacks[Ugettext], Default(Ugettext))
    }

    ghost function Stack(name: Name): seq<Attribute>
      requires name in mod.stacks
      reads this, mod
    {
      mod.stacks[name]
    }

    constructor (mod: Module)
      requires mod.Valid() && Gettext in mod.attrs && Ugettext in mod.attrs
      requires mod.attrs[Gettext].behaviour == mod.attrs[Ugettext].behaviour == Translates
      requires |mod.stacks[Gettext]| == |mod.stacks[Ugettext]| == 1
      ensures this.mod == mod && Valid()
    {
      this.mod := mod;
    }

    /** What a caller of the module gets, however often it has been patched and unpatched. */
    lemma Answer(name: Name, message: string, translate: string -> Text)
      requires Valid() && name in {Gettext, Ugettext}
      ensures Call(mod.attrs[name], message, translate) ==
              if message == "" && |Stack(name)| > 1 then (if name == Gettext then Bytes("") else Unicode(""))
              else translate(message)
    {
      GuardedCall(Stack(name), Default(name), message, translate);
    }

    method IsPatched() returns (patched: bool)
      requires Valid()
      ensures patched <==> |Stack(Gettext)| > 1 && |Stack(Ugettext)| > 1
    {
      patched := true;
      var first := mod.IsPatched(Gettext);
      if !first {
        return false;
      }
      patched := mod.IsPatched(Ugettext);
    }

    method Install(name: Name, guard: Attribute)
      requires Valid() && name in {Gettext, Ugettext} && mod.OnNoChain(guard)
      requires guard.behaviour == Guards(mod.attrs[name], Default(name)) && guard.depth > mod.attrs[name].depth
      modifies mod, guard
      ensures Valid() && OnlyNow(old(mod.stacks), mod.stacks, name, [guard] + old(Stack(name)))
      ensures mod.attrs == old(mod.attrs)[name := guard]
    {
      GuardedPush(guard, Stack(name), Default(name));
      var _ := mod.Patch(name, guard);
    }

    method Uninstall(name: Name) returns (wasPatched: bool)
      requires Valid() && name in {Gettext, Ugettext}
      modifies mod
      ensures Valid() && (wasPatched <==> |old(Stack(name))| > 1)
      ensures OnlyNow(old(mod.stacks), mod.stacks, name, Popped(old(Stack(name))))
    {
      GuardedPop(Stack(name), Default(name));
      wasPatched := mod.Unpatch(name);
    }

    /** Both functions are decorated as they are now, then both patched. */
    method Patch() returns (patched: bool)
      requires Valid()
      modifies mod
      ensures Valid() && patched
      ensures |Stack(Gettext)| == |old(Stack(Gettext))| + 1 && Stack(Gettext)[1..] == old(Stack(Gettext))
      ensures |Stack(Ugettext)| == |old(Stack(Ugettext))| + 1 && Stack(Ugettext)[1..] == old(Stack(Ugettext))
    {
      var gettext := new Attribute.Decorate(mod.attrs[Gettext], Bytes(""));
      var ugettext := new Attribute.Decorate(mod.attrs[Ugettext], Unicode(""));
      InstallBoth(gettext, ugettext);
      patched := IsPatched();
    }

    method InstallBoth(gettext: Attribute, ugettext: Attribute)
      requires Valid() && mod.OnNoChain(gettext) && mod.OnNoChain(ugettext) && gettext != ugettext
      requires gettext.behaviour == Guards(mod.attrs[Gettext], Default(Gettext))
      requires gettext.depth > mod.attrs[Gettext].depth
      requires ugettext.behaviour == Guards(mod.attrs[Ugettext], Default(Ugettext))
      requires ugettext.depth > mod.attrs[Ugettext].depth
      modifies mod, gettext, ugettext
      ensures Valid()
      ensures Stack(Gettext) == [gettext] + old(Stack(Gettext)) && Stack(Ugettext) == [ugettext] + old(Stack(Ugettext))
    {
      Install(Gettext, gettext);
      assert mod.OnNoChain(ugettext);
      Install(Ugettext, ugettext);
    }

    method Unpatch() returns (wasPatched: bool)
      requires Valid()
      modifies mod
      ensures Valid()
      ensures wasPatched <==> |old(Stack(Gettext))| > 1 || |old(Stack(Ugettext))| > 1
      ensures Stack(Gettext) == Popped(old(Stack(Gettext))) && Stack(Ugettext) == Popped(old(Stack(Ugettext)))
    {
      wasPatched := false;
      var one := Uninstall(Gettext);
      wasPatched := one || wasPatched;
      one := Uninstall(Ugettext);
      wasPatched := one || wasPatched;
    }

    method PatchOrUnpatch(op: bool)
      requires Valid()
      modifies mod
      ensures Valid() && MovedBy(old(Stack(Gettext)), Stack(Gettext), op)
      ensures MovedBy(old(Stack(Ugettext)), Stack(Ugettext), op)
    {
      if op {
        var _ := Patch();
      } else {
        var _ := Unpatch();
      }
    }

    /**
      Any interleaving of patches and unpatches: the functions below the lowest level reached are the
      very ones that were there, and the height is what a stack's would be.
     */
    method Replay(ops: seq<bool>)
      requires Valid()
      modifies mod
      ensures Valid() && Replayed(old(Stack(Gettext)), Stack(Gettext), ops)
      ensures Replayed(old(Stack(Ugettext)), Stack(Ugettext), ops)
      ensures Level(|old(Stack(Gettext))|, ops) ==> Stack(Gettext) == old(Stack(Gettext))
      ensures Level(|old(Stack(Ugettext))|, ops) ==> Stack(Ugettext) == old(Stack(Ugettext))
    {
      ghost var g0, u0 := Stack(Gettext), Stack(Ugettext);
      for i := 0 to |ops|
        invariant Valid() && Replayed(g0, Stack(Gettext), ops[..i]) && Replayed(u0, Stack(Ugettext), ops[..i])
      {
        ghost var g, u := Stack(Gettext), Stack(Ugettext);
        PatchOrUnpatch(ops[i]);
        ReplayOne(g0, g, Stack(Gettext), ops, i);
        ReplayOne(u0, u, Stack(Ugettext), ops, i);
      }
      assert ops[..|ops|] == ops;
      LevelRestores(g0, Stack(Gettext), ops);
      LevelRestores(u0, Stack(Ugettext), ops);
    }
  }

  lemma LevelRestores(before: seq<Attribute>, after: seq<Attribute>, ops: seq<bool>)
    requires Replayed(before, after, ops)
    ensures Level(|before|, ops) ==> after == before
  {
  }

  ghost predicate MovedBy(before: seq<Attribute>, after: seq<Attribute>, op: bool) {
    if op then |after| == |before| + 1 && after[1..] == before else after == Popped(before)
  }

  /** What a run of patches (true) and unpatches (false) makes of a stack. */
  ghost predicate Replayed(before: seq<Attribute>, after: seq<Attribute>, ops: seq<bool>) {
    && before != [] && |after| == Height(|before|, ops)
    && Bottom(after, LowWater(|before|, ops)) == Bottom(before, LowWater(|before|, ops))
  }

  lemma ReplayOne(before: seq<Attribute>, now: seq<Attribute>, after: seq<Attribute>, ops: seq<bool>, i: nat)
    requires i < |ops| && Replayed(before, now, ops[..i])
    requires MovedBy(now, after, ops[i])
    ensures Replayed(before, after, ops[..i + 1])
  {
    assert ops[..i + 1][..i] == ops[..i];
    BottomStep(before, now, after, LowWater(|before|, ops[..i]), LowWater(|before|, ops[..i + 1]));
  }

  lemma GuardedPush(a: Attribute, stack: seq<Attribute>, default: Text)
    requires Guarded(stack, default) && a.behaviour == Guards(stack[0], default) && a.depth > stack[0].depth
    ensures Guarded([a] + stack, default)
  {
    var pushed := [a] + stack;
    forall i | 0 <= i < |pushed| - 1
      ensures GuardsNext(pushed, i, default)
    {
      assert i > 0 ==> GuardsNext(stack, i - 1, default);
    }
  }

  lemma GuardedPop(stack: seq<Attribute>, default: Text)
    requires Guarded(stack, default)
    ensures Guarded(Popped(stack), default)
  {
    if |stack| > 1 {
      var tail := stack[1..];
      forall i | 0 <= i < |tail| - 1
        ensures GuardsNext(tail, i, default)
      {
        assert GuardsNext(stack, i + 1, default);
      }
    }
  }

  /** The stack height after patches (true) and unpatches (false); an original is never unpatched. */
  function Height(h: nat, ops: seq<bool>): (r: nat)
    requires h > 0
    ensures r > 0
  {
    if ops == [] then h
    else
      var before := Height(h, ops[..|ops| - 1]);
      if ops[|ops| - 1] then before + 1 else if before > 1 then before - 1 else before
  }

  function LowWater(h: nat, ops: seq<bool>): (r: nat)
    requires h > 0
    ensures 0 < r <= h && r <= Height(h, ops)
  {
    if ops == [] then h
    else
      var before := LowWater(h, ops[..|ops| - 1]);
      if Height(h, ops) < before then Height(h, ops) else before
  }

  function Bottom<T>(stack: seq<T>, n: nat): seq<T>
    requires n <= |stack|
  {
    stack[|stack| - n..]
  }

  lemma BottomStep<T>(was: seq<T>, before: seq<T>, after: seq<T>, low: nat, low': nat)
    requires low' <= low <= |was| && low <= |before| && low' <= |after|
    requires Bottom(before, low) == Bottom(was, low)
    requires after == Popped(before) || (|after| > 0 && after[1..] == before)
    ensures Bottom(after, low') == Bottom(was, low')
  {
    assert Bottom(was, low') == Bottom(Bottom(was, low), low');
    assert Bottom(before, low') == Bottom(Bottom(before, low), low');
    if |after| > 0 && after[1..] == before {
      assert Bottom(after, low') == Bottom(before, low');
    } else {
      assert Bottom(after, low') == Bottom(before, low');
    }
  }

  /** A run that comes back to its start's height without dipping below it. */
  predicate Level(h: nat, ops: seq<bool>) {
    h > 0 && Height(h, ops) == LowWater(h, ops) == h
  }
}
