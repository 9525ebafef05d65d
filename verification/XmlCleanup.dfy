/** Unique, legal names for course XML nodes (common/xml_cleanup.py). */
module XmlCleanup {
  import opened Wrappers
  import opened Decimal

  /** What the pattern `[\w.-]` accepts in a byte string. */
  predicate IsLegal(c: char) {
    'a' <= c <= 'z' || 'A' <= c <= 'Z' || IsDigit(c) || c == '_' || c == '.' || c == '-'
  }

  function ReplaceInvalid(s: string): (r: string) {
    if s == [] then [] else ReplaceInvalid(s[..|s| - 1]) + [if IsLegal(s[|s| - 1]) then s[|s| - 1] else '_']
  }

  /** Every run of underscores becomes one underscore. */
  function Collapse(s: string): (r: string) {
    if s == [] then []
    else
      var init := Collapse(s[..|s| - 1]);
      if s[|s| - 1] == '_' && init != [] && init[|init| - 1] == '_' then init else init + [s[|s| - 1]]
  }

  function Clean(value: string): string {
    Collapse(ReplaceInvalid(value))
  }

  /** A name legal for locations: legal characters only, no two underscores in a row. */
  predicate LegalName(s: string) {
    && (forall i :: 0 <= i < |s| ==> IsLegal(s[i]))
    && (forall i :: 0 < i < |s| ==> !Doubled(s, i))
  }

  predicate Doubled(s: string, i: nat)
    requires 0 < i < |s|
  {
    s[i - 1] == '_' && s[i] == '_'
  }

  lemma {:induction false} ReplaceInvalidIsLegal(s: string)
    ensures |ReplaceInvalid(s)| == |s|
    ensures forall i :: 0 <= i < |s| ==> ReplaceInvalid(s)[i] == if IsLegal(s[i]) then s[i] else '_'
  {
    if s != [] {
      ReplaceInvalidIsLegal(s[..|s| - 1]);
    }
  }

  lemma {:induction false} CollapseIsLegal(s: string)
    requires forall i :: 0 <= i < |s| ==> IsLegal(s[i])
    ensures LegalName(Collapse(s))
  {
    if s != [] {
      var init := Collapse(s[..|s| - 1]);
      CollapseIsLegal(s[..|s| - 1]);
      forall i | 0 < i < |Collapse(s)|
        ensures !Doubled(Collapse(s), i)
      {
        assert i < |init| ==> !Doubled(init, i);
      }
    }
  }

  lemma {:induction false} CollapseFixes(s: string)
    requires forall i :: 0 < i < |s| ==> !Doubled(s, i)
    ensures Collapse(s) == s
  {
    if s != [] {
      var init := s[..|s| - 1];
      forall i | 0 < i < |init|
        ensures !Doubled(init, i)
      {
        assert !Doubled(s, i);
      }
      CollapseFixes(init);
      assert init + [s[|s| - 1]] == s;
      assert init != [] ==> !Doubled(s, |s| - 1);
    }
  }

  /** `clean` always gives a legal name, and the names it leaves alone are exactly the legal ones. */
  lemma CleanIsLegal(s: string)
    ensures LegalName(Clean(s))
    ensures Clean(s) == s <==> LegalName(s)
    ensures Clean(Clean(s)) == Clean(s)
  {
    CleanSound(s);
    if LegalName(s) {
      CleanFixes(s);
    }
    CleanFixes(Clean(s));
  }

  lemma CleanSound(s: string)
    ensures LegalName(Clean(s))
  {
    ReplaceInvalidIsLegal(s);
    CollapseIsLegal(ReplaceInvalid(s));
  }

  lemma CleanFixes(s: string)
    requires LegalName(s)
    ensures Clean(s) == s
  {
    ReplaceInvalidIsLegal(s);
    assert ReplaceInvalid(s) == s;
    CollapseFixes(s);
  }

  lemma SuffixedIsLegal(s: string, x: nat)
    requires LegalName(s)
    ensures LegalName(s + Print(x))
  {
    forall i | 0 < i < |s + Print(x)|
      ensures !Doubled(s + Print(x), i)
    {
      assert i < |s| ==> !Doubled(s, i);
    }
  }

  /** The suffixed names tried before `x`. */
  function Tried(base: string, x: nat): set<string> {
    set i: nat | 1 <= i < x :: base + Print(i)
  }

  lemma NotYetTried(base: string, x: nat)
    ensures base + Print(x) !in Tried(base, x)
  {
    forall i: nat | 1 <= i < x
      ensures base + Print(i) != base + Print(x)
    {
      PrintInjective(i, x);
      assert (base + Print(i))[|base|..] == Print(i);
      assert (base + Print(x))[|base|..] == Print(x);
    }
  }

  /** The name `clean_unique` promises: the cleaned name if free, else its least free numbered variant. */
  ghost predicate IsLeastFree(used: set<string>, base: string, chosen: string) {
    chosen !in used &&
    (chosen == base ||
     (base in used &&
      exists x: nat :: 1 <= x && chosen == base + Print(x) && Tried(base, x) <= used))
  }

  lemma LeastFreeIsUnique(used: set<string>, base: string, a: string, b: string)
    requires IsLeastFree(used, base, a) && IsLeastFree(used, base, b)
    ensures a == b
  {
    if base in used {
      var x: nat :| 1 <= x && a == base + Print(x) && Tried(base, x) <= used;
      var y: nat :| 1 <= y && b == base + Print(y) && Tried(base, y) <= used;
      assert x < y ==> a in Tried(base, y);
      assert y < x ==> b in Tried(base, x);
    }
  }

  /** The first free numbered variant from number `x` on. */
  function FreeFrom(used: set<string>, base: string, x: nat): (chosen: string)
    requires x >= 1 && Tried(base, x) <= used
    ensures chosen !in used && exists y: nat :: 1 <= y && chosen == base + Print(y) && Tried(base, y) <= used
    decreases used - Tried(base, x)
  {
    if base + Print(x) !in used then base + Print(x)
    else
      TriedOneMore(base, x);
      FreeFrom(used, base, x + 1)
  }

  lemma TriedOneMore(base: string, x: nat)
    requires x >= 1
    ensures Tried(base, x + 1) == Tried(base, x) + {base + Print(x)} && base + Print(x) !in Tried(base, x)
  {
    NotYetTried(base, x);
  }

  /** The least free name: the base itself, or its first free numbered variant. */
  function LeastFree(used: set<string>, base: string): (chosen: string)
    ensures IsLeastFree(used, base, chosen)
  {
    if base !in used then base else FreeFrom(used, base, 1)
  }

  /** An attribute key; `Other` is any key but the four the script looks at by name. */
  datatype Key = UrlName | Name | DisplayName | Filename | Other(key: string)

  type Attributes = map<Key, string>

  datatype Node = Node(tag: string, attrs: Attributes)

  /** The keys exported to the policy file, beside `display_name`. */
  const POLICY_KEYS: set<string> := {
    "format", "graceperiod", "showanswer", "rerandomize", "start", "due", "graded", "hide_from_toc", "ispublic",
    "xqa_key"
  }

  predicate IsPolicyKey(k: Key) {
    k.DisplayName? || (k.Other? && k.key in POLICY_KEYS)
  }

  function WithoutPolicy(attrs: Attributes): Attributes {
    map k | k in attrs && !IsPolicyKey(k) :: attrs[k]
  }

  /** A node that is only a pointer to a file of the same name. */
  predicate IsDisguisedPointer(attrs: Attributes) {
    attrs.Keys == {UrlName, Filename} && attrs[UrlName] == attrs[Filename]
  }

  function UsedIn(used: map<string, set<string>>, category: string): set<string> {
    if category in used then used[category] else {}
  }

  class Cleaner {
    var used: map<string, set<string>>

    function Used(category: string): set<string>
      reads this
    {
      UsedIn(used, category)
    }

    constructor ()
      ensures used == map[]
    {
      used := map[];
    }

    method CleanUnique(category: string, name: string) returns (cleaned: string)
      modifies this
      ensures cleaned == LeastFree(old(Used(category)), Clean(name)) && LegalName(cleaned)
      ensures IsLeastFree(old(Used(category)), Clean(name), cleaned)
      ensures Used(category) == old(Used(category)) + {cleaned}
      ensures forall c :: c != category ==> Used(c) == old(Used(c))
    {
      cleaned := Clean(name);
      CleanSound(name);
      if cleaned !in Used(category) {
        used := used[category := Used(category) + {cleaned}];
        return;
      }
      var x: nat := 1;
      while cleaned + Print(x) in Used(category)
        invariant x >= 1 && used == old(used) && Tried(cleaned, x) <= Used(category)
        invariant FreeFrom(Used(category), cleaned, x) == FreeFrom(Used(category), cleaned, 1)
        decreases Used(category) - Tried(cleaned, x)
      {
        TriedOneMore(cleaned, x);
        x := x + 1;
      }
      SuffixedIsLegal(cleaned, x);
      cleaned := cleaned + Print(x);
      used := used[category := Used(category) + {cleaned}];
    }

    /** One turn of the loop over a document's nodes. `given` is the name `clean_unique` handed out, if any. */
    method CleanupNode(node: Node, removeMeta: bool) returns (attrs: Attributes, ghost given: Option<string>)
      modifies this
      ensures given == GivenName(old(Used(node.tag)), node)
      ensures Used(node.tag) == SeenBefore(old(Used(node.tag)), node) + Handed(given)
      ensures forall c :: c != node.tag ==> Used(c) == old(Used(c))
      ensures attrs == Stripped(Renamed(node.attrs, given), removeMeta)
    {
      attrs := node.attrs;
      given := None;
      if UrlName in attrs {
        used := used[node.tag := Used(node.tag) + {attrs[UrlName]}];
      }
      if Name in attrs {
        var name := attrs[Name];
        attrs := attrs[DisplayName := name];
        var urlName := CleanUnique(node.tag, name);
        given := Some(urlName);
        attrs := attrs[UrlName := urlName];
        attrs := attrs - {Name};
      }
      assert attrs == Renamed(node.attrs, given);
      attrs := StripAttributes(attrs, removeMeta);
    }
  }

  /** The second half of a turn: turn disguised pointers into pointers, then drop the policy keys. */
  method StripAttributes(attrs0: Attributes, removeMeta: bool) returns (attrs: Attributes)
    ensures attrs == Stripped(attrs0, removeMeta)
  {
    attrs := attrs0;
    PointerTest(attrs);
    if UrlName in attrs && Filename in attrs && |attrs| == 2 && attrs[UrlName] == attrs[Filename] {
      attrs := attrs - {Filename};
    }
    if removeMeta {
      attrs := WithoutPolicy(attrs);
    }
  }

  lemma PointerTest(attrs: Attributes)
    ensures IsDisguisedPointer(attrs) <==>
            UrlName in attrs && Filename in attrs && |attrs| == 2 && attrs[UrlName] == attrs[Filename]
  {
    if UrlName in attrs && Filename in attrs {
      var rest := attrs.Keys - {UrlName, Filename};
      assert attrs.Keys == rest + {UrlName, Filename};
      assert |attrs| == |attrs.Keys| == |rest| + 2;
    }
  }

  /** The names of the node's category already taken when its own `name` is looked at. */
  function SeenBefore(used: set<string>, node: Node): set<string> {
    used + (if UrlName in node.attrs then {node.attrs[UrlName]} else {})
  }

  /** The name a node is given in place of its `name`. */
  function GivenName(used: set<string>, node: Node): (given: Option<string>)
    ensures given.Some? <==> Name in node.attrs
  {
    if Name in node.attrs then Some(LeastFree(SeenBefore(used, node), Clean(node.attrs[Name]))) else None
  }

  function UrlOf(attrs: Attributes): Option<string> {
    if UrlName in attrs then Some(attrs[UrlName]) else None
  }

  /** The name a node is left with, if any. */
  function FinalName(used: set<string>, node: Node): Option<string> {
    if Name in node.attrs then GivenName(used, node) else UrlOf(node.attrs)
  }

  function Handed(given: Option<string>): set<string> {
    if given.Some? then {given.value} else {}
  }

  function Renamed(attrs: Attributes, given: Option<string>): Attributes
    requires given.Some? ==> Name in attrs
  {
    if given.None? then attrs
    else attrs[DisplayName := attrs[Name]][UrlName := given.value] - {Name}
  }

  function Stripped(attrs: Attributes, removeMeta: bool): Attributes {
    var pointed := if IsDisguisedPointer(attrs) then attrs - {Filename} else attrs;
    if removeMeta then WithoutPolicy(pointed) else pointed
  }

  predicate Renames(node: Node) {
    Name in node.attrs
  }

  /** The names taken in a category once these nodes have been cleaned. */
  function UsedAfter(before: map<string, set<string>>, nodes: seq<Node>, category: string): set<string>
    decreases |nodes|
  {
    if nodes == [] then UsedIn(before, category)
    else
      var used, last := UsedAfter(before, nodes[..|nodes| - 1], category), nodes[|nodes| - 1];
      if last.tag == category then SeenBefore(used, last) + Handed(GivenName(used, last)) else used
  }

  /** The `url_name`s the nodes of a document are left with, told from the document and the names taken before it. */
  function FinalNames(before: map<string, set<string>>, nodes: seq<Node>): (names: seq<Option<string>>)
    ensures |names| == |nodes|
  {
    if nodes == [] then []
    else
      var init, last := nodes[..|nodes| - 1], nodes[|nodes| - 1];
      FinalNames(before, init) + [FinalName(UsedAfter(before, init, last.tag), last)]
  }

  function CleanedNode(used: set<string>, node: Node, removeMeta: bool): Node {
    Node(node.tag, Stripped(Renamed(node.attrs, GivenName(used, node)), removeMeta))
  }

  /** The cleaned document. */
  function CleanedNodes(before: map<string, set<string>>, nodes: seq<Node>, removeMeta: bool): (result: seq<Node>)
    ensures |result| == |nodes|
  {
    if nodes == [] then []
    else
      var init, last := nodes[..|nodes| - 1], nodes[|nodes| - 1];
      CleanedNodes(before, init, removeMeta) + [CleanedNode(UsedAfter(before, init, last.tag), last, removeMeta)]
  }

  /** What becomes of one node: no `name`, the final name, and the old name kept unless policy keys are stripped. */
  lemma CleanedNodeMeans(used: set<string>, node: Node, removeMeta: bool)
    ensures var attrs := CleanedNode(used, node, removeMeta).attrs;
            && Name !in attrs && UrlOf(attrs) == FinalName(used, node)
            && (Renames(node) && !removeMeta ==> DisplayName in attrs && attrs[DisplayName] == node.attrs[Name])
  {
  }

  lemma {:induction false} CleanedNodesAt(before: map<string, set<string>>, nodes: seq<Node>, removeMeta: bool, i: nat)
    requires i < |nodes|
    ensures var used := UsedAfter(before, nodes[..i], nodes[i].tag);
            && CleanedNodes(before, nodes, removeMeta)[i] == CleanedNode(used, nodes[i], removeMeta)
            && FinalNames(before, nodes)[i] == FinalName(used, nodes[i])
  {
    var init := nodes[..|nodes| - 1];
    if i < |init| {
      CleanedNodesAt(before, init, removeMeta, i);
      assert init[..i] == nodes[..i];
    }
  }

  /** The cleaned nodes carry the final names, keep their tags, and have no `name`. */
  lemma DocumentCarriesNames(before: map<string, set<string>>, nodes: seq<Node>, removeMeta: bool, i: nat)
    requires i < |nodes|
    ensures var node := CleanedNodes(before, nodes, removeMeta)[i];
            && node.tag == nodes[i].tag && !Renames(node) && UrlOf(node.attrs) == FinalNames(before, nodes)[i]
            && (Renames(nodes[i]) && !removeMeta ==>
                DisplayName in node.attrs && node.attrs[DisplayName] == nodes[i].attrs[Name])
  {
    CleanedNodesAt(before, nodes, removeMeta, i);
    CleanedNodeMeans(UsedAfter(before, nodes[..i], nodes[i].tag), nodes[i], removeMeta);
  }

  /** All names met so far in a category are taken: those from before, and each node's, as it came and as it is left. */
  lemma {:induction false} NamesAreUsed(before: map<string, set<string>>, nodes: seq<Node>, category: string, i: nat)
    requires i < |nodes| && nodes[i].tag == category
    ensures var used := UsedAfter(before, nodes, category);
            && (category in before ==> before[category] <= used)
            && (UrlOf(nodes[i].attrs).Some? ==> UrlOf(nodes[i].attrs).value in used)
            && (FinalNames(before, nodes)[i].Some? ==> FinalNames(before, nodes)[i].value in used)
  {
    var init := nodes[..|nodes| - 1];
    BeforeIsUsed(before, nodes, category);
    if i < |init| {
      NamesAreUsed(before, init, category, i);
    }
  }

  lemma {:induction false} BeforeIsUsed(before: map<string, set<string>>, nodes: seq<Node>, category: string)
    ensures category in before ==> before[category] <= UsedAfter(before, nodes, category)
    decreases |nodes|
  {
    if nodes != [] {
      BeforeIsUsed(before, nodes[..|nodes| - 1], category);
    }
  }

  /**
    The name was taken before the document, or a node of the category among the first `n` came with it or is
    left with it.
   */
  ghost predicate TakenBy(before: map<string, set<string>>, nodes: seq<Node>, category: string, n: nat, name: string)
    requires n <= |nodes|
  {
    (category in before && name in before[category]) || CarriedBy(nodes, FinalNames(before, nodes), category, n, name)
  }

  ghost predicate Carries(node: Node, left: Option<string>, category: string, name: string) {
    node.tag == category && (UrlOf(node.attrs) == Some(name) || left == Some(name))
  }

  ghost predicate CarriedBy(nodes: seq<Node>, names: seq<Option<string>>, category: string, n: nat, name: string)
    requires n <= |nodes| == |names|
  {
    exists i :: 0 <= i < n && Carries(nodes[i], names[i], category, name)
  }

  lemma CarriedOneMore(nodes: seq<Node>, names: seq<Option<string>>, node: Node, left: Option<string>,
                       category: string, name: string)
    requires |nodes| == |names|
    ensures CarriedBy(nodes + [node], names + [left], category, |nodes| + 1, name) <==>
            CarriedBy(nodes, names, category, |nodes|, name) || Carries(node, left, category, name)
  {
    var all, lefts := nodes + [node], names + [left];
    if i :| 0 <= i < |nodes| && Carries(nodes[i], names[i], category, name) {
      assert Carries(all[i], lefts[i], category, name);
    }
    if Carries(node, left, category, name) {
      assert Carries(all[|nodes|], lefts[|nodes|], category, name);
    }
    if i :| 0 <= i < |all| && Carries(all[i], lefts[i], category, name) {
      assert i < |nodes| ==> Carries(nodes[i], names[i], category, name);
    }
  }

  lemma UsedPush(before: map<string, set<string>>, nodes: seq<Node>, node: Node, category: string, name: string)
    ensures var used := UsedAfter(before, nodes, node.tag);
            && FinalNames(before, nodes + [node]) == FinalNames(before, nodes) + [FinalName(used, node)]
            && (name in UsedAfter(before, nodes + [node], category) <==>
                name in UsedAfter(before, nodes, category) || Carries(node, FinalName(used, node), category, name))
  {
    assert (nodes + [node])[..|nodes|] == nodes;
  }

  lemma {:induction false} UsedExactly(before: map<string, set<string>>, nodes: seq<Node>, category: string,
                                       name: string)
    ensures name in UsedAfter(before, nodes, category) <==> TakenBy(before, nodes, category, |nodes|, name)
    decreases |nodes|
  {
    if nodes != [] {
      var init, last := nodes[..|nodes| - 1], nodes[|nodes| - 1];
      UsedExactly(before, init, category, name);
      UsedPush(before, init, last, category, name);
      CarriedOneMore(init, FinalNames(before, init), last, FinalName(UsedAfter(before, init, last.tag), last), category,
                     name);
      assert init + [last] == nodes;
    }
  }

  /** When a node's turn comes, the names it must avoid are just those and its own `url_name`. */
  lemma AvoidedExactly(before: map<string, set<string>>, nodes: seq<Node>, j: nat, name: string)
    requires j < |nodes|
    ensures name in SeenBefore(UsedAfter(before, nodes[..j], nodes[j].tag), nodes[j]) <==>
            TakenBy(before, nodes, nodes[j].tag, j, name) || UrlOf(nodes[j].attrs) == Some(name)
  {
    UsedExactly(before, nodes[..j], nodes[j].tag, name);
    forall i | 0 <= i < j
      ensures FinalNames(before, nodes[..j])[i] == FinalNames(before, nodes)[i]
    {
      CleanedNodesAt(before, nodes, false, i);
      CleanedNodesAt(before, nodes[..j], false, i);
      assert nodes[..j][..i] == nodes[..i];
    }
    CarriedByPrefix(nodes, FinalNames(before, nodes[..j]), FinalNames(before, nodes), nodes[j].tag, j, name);
  }

  lemma CarriedByPrefix(nodes: seq<Node>, some: seq<Option<string>>, names: seq<Option<string>>, category: string,
                        j: nat, name: string)
    requires j <= |nodes| == |names| && |some| == j && forall i :: 0 <= i < j ==> some[i] == names[i]
    ensures CarriedBy(nodes[..j], some, category, j, name) <==> CarriedBy(nodes, names, category, j, name)
  {
    if i :| 0 <= i < j && Carries(nodes[i], names[i], category, name) {
      assert Carries(nodes[..j][i], some[i], category, name);
    }
  }

  /**
    A renamed node's name is legal, the least free one when its turn comes, and differs from the names taken
    before the document, from the one the node came with, and from all that earlier nodes of its category
    came with or were left with.
   */
  lemma NewNameIsNew(before: map<string, set<string>>, nodes: seq<Node>, j: nat)
    requires j < |nodes| && Renames(nodes[j])
    ensures var tag, name := nodes[j].tag, FinalNames(before, nodes)[j];
            && name.Some? && LegalName(name.value)
            && IsLeastFree(SeenBefore(UsedAfter(before, nodes[..j], tag), nodes[j]), Clean(nodes[j].attrs[Name]),
                           name.value)
            && (tag in before ==> name.value !in before[tag]) && name != UrlOf(nodes[j].attrs)
            && forall i :: 0 <= i < j && nodes[i].tag == tag ==>
                 name != UrlOf(nodes[i].attrs) && name != FinalNames(before, nodes)[i]
  {
    var tag := nodes[j].tag;
    CleanedNodesAt(before, nodes, false, j);
    BeforeIsUsed(before, nodes[..j], tag);
    LeastFreeIsLegal(SeenBefore(UsedAfter(before, nodes[..j], tag), nodes[j]), nodes[j].attrs[Name]);
    forall i | 0 <= i < j && nodes[i].tag == tag
      ensures FinalNames(before, nodes)[j] != UrlOf(nodes[i].attrs)
      ensures FinalNames(before, nodes)[j] != FinalNames(before, nodes)[i]
    {
      NamesAreUsed(before, nodes[..j], tag, i);
      CleanedNodesAt(before, nodes, false, i);
      CleanedNodesAt(before, nodes[..j], false, i);
      assert nodes[..j][..i] == nodes[..i];
    }
  }

  lemma LeastFreeIsLegal(used: set<string>, name: string)
    ensures LegalName(LeastFree(used, Clean(name)))
  {
    CleanSound(name);
    if Clean(name) in used {
      var x: nat :| 1 <= x && LeastFree(used, Clean(name)) == Clean(name) + Print(x) && Tried(Clean(name), x) <= used;
      SuffixedIsLegal(Clean(name), x);
    }
  }

  /** No two nodes of a category are left with one name. */
  predicate NamesDistinct(nodes: seq<Node>, names: seq<Option<string>>)
    requires |names| == |nodes|
  {
    forall i, j :: 0 <= i < j < |nodes| && nodes[i].tag == nodes[j].tag && names[i].Some? ==> names[i] != names[j]
  }

  /** A node without `name` comes with the `url_name` that an earlier node of its category is left with. */
  predicate Clashes(nodes: seq<Node>, names: seq<Option<string>>, i: nat, j: nat)
    requires |names| == |nodes| && i < j < |nodes|
  {
    && nodes[i].tag == nodes[j].tag && names[i].Some?
    && !Renames(nodes[j]) && UrlOf(nodes[j].attrs) == names[i]
  }

  predicate NoneClashes(nodes: seq<Node>, names: seq<Option<string>>)
    requires |names| == |nodes|
  {
    forall i, j :: 0 <= i < j < |nodes| ==> !Clashes(nodes, names, i, j)
  }

  /** After cleaning, names are unique in each category exactly if no node clashes: such a node is not renamed. */
  lemma NamesDistinctExactly(before: map<string, set<string>>, nodes: seq<Node>)
    ensures NamesDistinct(nodes, FinalNames(before, nodes)) <==> NoneClashes(nodes, FinalNames(before, nodes))
  {
    forall i, j | 0 <= i < j < |nodes|
      ensures EqualByClash(nodes, FinalNames(before, nodes), i, j)
    {
      if nodes[i].tag == nodes[j].tag && FinalNames(before, nodes)[i].Some? {
        EqualNamesClash(before, nodes, i, j);
      }
    }
    DistinctWithoutClash(nodes, FinalNames(before, nodes));
  }

  predicate EqualByClash(nodes: seq<Node>, names: seq<Option<string>>, i: nat, j: nat)
    requires |names| == |nodes| && i < j < |nodes|
  {
    nodes[i].tag == nodes[j].tag && names[i].Some? ==> (names[i] == names[j] <==> Clashes(nodes, names, i, j))
  }

  lemma DistinctWithoutClash(nodes: seq<Node>, names: seq<Option<string>>)
    requires |names| == |nodes| && forall i, j :: 0 <= i < j < |nodes| ==> EqualByClash(nodes, names, i, j)
    ensures NamesDistinct(nodes, names) <==> NoneClashes(nodes, names)
  {
    if NamesDistinct(nodes, names) {
      forall i, j | 0 <= i < j < |nodes|
        ensures !Clashes(nodes, names, i, j)
      {
        assert EqualByClash(nodes, names, i, j);
      }
    }
    if NoneClashes(nodes, names) {
      forall i, j | 0 <= i < j < |nodes| && nodes[i].tag == nodes[j].tag && names[i].Some?
        ensures names[i] != names[j]
      {
        assert EqualByClash(nodes, names, i, j) && !Clashes(nodes, names, i, j);
      }
    }
  }

  lemma EqualNamesClash(before: map<string, set<string>>, nodes: seq<Node>, i: nat, j: nat)
    requires i < j < |nodes| && nodes[i].tag == nodes[j].tag && FinalNames(before, nodes)[i].Some?
    ensures var names := FinalNames(before, nodes);
            names[i] == names[j] <==> Clashes(nodes, names, i, j)
  {
    CleanedNodesAt(before, nodes, false, j);
    if Renames(nodes[j]) {
      NewNameIsNew(before, nodes, j);
    }
  }

  /** A name handed out to one node and carried by a later one: both are left with it. */
  lemma LaterUrlClashes(tag: string, name: string)
    requires LegalName(name)
    ensures var nodes := [Node(tag, map[Name := name])] + [Node(tag, map[UrlName := name])];
            FinalNames(map[], nodes) == [Some(name), Some(name)] && !NamesDistinct(nodes, FinalNames(map[], nodes))
  {
    var named, carried := Node(tag, map[Name := name]), Node(tag, map[UrlName := name]);
    var nodes := [named] + [carried];
    CleanFixes(name);
    assert nodes[..0] == [] && nodes[..1] == [named];
    CleanedNodesAt(map[], nodes, false, 0);
    CleanedNodesAt(map[], nodes, false, 1);
    assert FinalNames(map[], nodes)[0] == Some(name) && FinalNames(map[], nodes)[1] == Some(name);
  }

  // ---------------------------------------------------------------- what is left of names and attributes

  /** What the pattern for invalid characters and the pattern for repeated underscores both leave alone. */
  predicate IsKept(c: char) {
    c != '_' && ('a' <= c <= 'z' || 'A' <= c <= 'Z' || '0' <= c <= '9' || c == '.' || c == '-')
  }

  predicate AllKept(s: string) {
    forall i :: 0 <= i < |s| ==> IsKept(s[i])
  }

  predicate NoneKept(s: string) {
    forall i :: 0 <= i < |s| ==> !IsKept(s[i])
  }

  lemma CleanPush(s: string, c: char)
    ensures var done := Clean(s);
            Clean(s + [c]) ==
            if IsKept(c) then done + [c]
            else if done != [] && done[|done| - 1] == '_' then done
            else done + ['_']
  {
    assert (s + [c])[..|s|] == s;
    var replaced := ReplaceInvalid(s) + [if IsLegal(c) then c else '_'];
    assert ReplaceInvalid(s + [c]) == replaced;
    assert replaced[..|replaced| - 1] == ReplaceInvalid(s);
  }

  lemma {:induction false} CleanAppendKept(s: string, kept: string)
    requires AllKept(kept)
    ensures Clean(s + kept) == Clean(s) + kept
  {
    if kept == [] {
      assert s + kept == s;
    } else {
      var init, c := kept[..|kept| - 1], kept[|kept| - 1];
      CleanAppendKept(s, init);
      CleanPush(s + init, c);
      PushedBack(s, kept);
      PushedBack(Clean(s), kept);
    }
  }

  lemma PushedBack(s: string, more: string)
    requires more != []
    ensures (s + more[..|more| - 1]) + [more[|more| - 1]] == s + more
  {
  }

  lemma {:induction false} CleanAppendRun(s: string, run: string)
    requires run != [] && NoneKept(run) && (Clean(s) == [] || Clean(s)[|Clean(s)| - 1] != '_')
    ensures Clean(s + run) == Clean(s) + ['_']
  {
    var init, c := run[..|run| - 1], run[|run| - 1];
    PushedBack(s, run);
    CleanPush(s + init, c);
    if init == [] {
      assert s + init == s;
    } else {
      CleanAppendRun(s, init);
    }
  }

  /**
    What `clean` makes of a name, whatever it has made of what stands before: every kept character stays, and
    every maximal run of others, underscores included, becomes one underscore.
   */
  lemma CleanRunByRun(s: string, kept: string, run: string)
    requires kept != [] && AllKept(kept) && run != [] && NoneKept(run)
    ensures Clean(s + kept + run) == Clean(s) + kept + ['_']
    ensures Clean(kept) == kept && Clean(run) == ['_'] && Clean("") == ""
  {
    CleanAppendKept(s, kept);
    assert (Clean(s) + kept)[|Clean(s) + kept| - 1] == kept[|kept| - 1];
    CleanAppendRun(s + kept, run);
    CleanAppendKept("", kept);
    CleanAppendRun("", run);
    assert "" + kept == kept && "" + run == run && [] + ['_'] == ['_'];
  }

  /** Exported to the policy file, and dropped from the document if asked. */
  predicate GoesToPolicy(k: Key) {
    k == DisplayName ||
    (k.Other? && k.key in {"format", "graceperiod", "showanswer", "rerandomize", "start", "due", "graded",
                           "hide_from_toc", "ispublic", "xqa_key"})
  }

  /** The node has nothing but a `url_name` and an equal `filename`. */
  predicate PointsToItself(node: Node) {
    node.attrs.Keys == {UrlName, Filename} && node.attrs[UrlName] == node.attrs[Filename]
  }

  function At(attrs: Attributes, k: Key): Option<string> {
    if k in attrs then Some(attrs[k]) else None
  }

  lemma StrippedAt(attrs: Attributes, removeMeta: bool, k: Key)
    ensures At(Stripped(attrs, removeMeta), k) ==
            if (removeMeta && GoesToPolicy(k)) || (k == Filename && IsDisguisedPointer(attrs)) then None
            else At(attrs, k)
  {
  }

  /**
    Each attribute of a cleaned node: `name` is gone; `url_name` is the final name; `filename` stays unless the
    node is a disguised pointer; `display_name` is the old `name`, if there was one; the rest stays as it was;
    and what goes to the policy file is dropped exactly if asked.
   */
  lemma AttributesExactly(used: set<string>, node: Node, removeMeta: bool, k: Key)
    ensures var attrs := CleanedNode(used, node, removeMeta).attrs;
            At(attrs, k) ==
            if k == Name || (removeMeta && GoesToPolicy(k)) then None
            else if k == UrlName then FinalName(used, node)
            else if k == Filename && PointsToItself(node) then None
            else if k == DisplayName && Name in node.attrs then Some(node.attrs[Name])
            else At(node.attrs, k)
  {
    var renamed := Renamed(node.attrs, GivenName(used, node));
    StrippedAt(renamed, removeMeta, k);
    if Name in node.attrs {
      assert DisplayName in renamed;
    }
  }

  /** In every category the names taken are those from before and those the nodes take. */
  ghost predicate Tracks(used: map<string, set<string>>, before: map<string, set<string>>, nodes: seq<Node>) {
    forall c :: UsedIn(used, c) == UsedAfter(before, nodes, c)
  }

  lemma OneMoreNode(used: map<string, set<string>>, used': map<string, set<string>>, before: map<string, set<string>>,
                    nodes: seq<Node>, node: Node, removeMeta: bool)
    requires Tracks(used, before, nodes)
    requires var seen := SeenBefore(UsedIn(used, node.tag), node);
             UsedIn(used', node.tag) == seen + Handed(GivenName(UsedIn(used, node.tag), node))
    requires forall c :: c != node.tag ==> UsedIn(used', c) == UsedIn(used, c)
    ensures Tracks(used', before, nodes + [node])
    ensures CleanedNodes(before, nodes + [node], removeMeta) ==
            CleanedNodes(before, nodes, removeMeta) + [CleanedNode(UsedIn(used, node.tag), node, removeMeta)]
  {
    assert (nodes + [node])[..|nodes|] == nodes;
  }

  /** Cleaning a whole document, node by node in document order. */
  method CleanupDocument(cleaner: Cleaner, nodes: seq<Node>, removeMeta: bool) returns (result: seq<Node>)
    modifies cleaner
    ensures result == CleanedNodes(old(cleaner.used), nodes, removeMeta)
    // so that a later document's names avoid this one's
    ensures forall c :: cleaner.Used(c) == UsedAfter(old(cleaner.used), nodes, c)
  {
    result := [];
    for n := 0 to |nodes|
      invariant result == CleanedNodes(old(cleaner.used), nodes[..n], removeMeta)
      invariant Tracks(cleaner.used, old(cleaner.used), nodes[..n])
    {
      assert nodes[..n + 1] == nodes[..n] + [nodes[n]];
      ghost var used := cleaner.used;
      var attrs, given := cleaner.CleanupNode(nodes[n], removeMeta);
      forall c | c != nodes[n].tag
        ensures UsedIn(cleaner.used, c) == UsedIn(used, c)
      {
        assert UsedIn(cleaner.used, c) == cleaner.Used(c);
      }
      OneMoreNode(used, cleaner.used, old(cleaner.used), nodes[..n], nodes[n], removeMeta);
      result := result + [Node(nodes[n].tag, attrs)];
    }
    assert nodes[..|nodes|] == nodes;
  }
}
