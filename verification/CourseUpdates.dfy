/** The list of course updates and its rendered page (cms/djangoapps/contentstore/course_info_model.py). */
module CourseUpdates {
  import opened Wrappers
  import opened Decimal
  import opened Sequences

  datatype Status = Visible | Deleted

  /** A stored update; items parsed from an old page have no status. */
  datatype Item = Item(id: int, date: Option<string>, content: Option<string>, status: Option<Status>)

  /** What a client sees of an update. */
  datatype Shown = Shown(id: int, date: Option<string>, content: Option<string>)

  datatype Tag = H2 | OtherTag(name: string)

  /** A parsed HTML element: its tag, the text inside and after it, and its own markup. */
  datatype Element = Element(tag: Tag, text: Option<string>, tail: Option<string>, markup: string)

  datatype Article = Article(date: Option<string>, content: Option<string>)

  /** The `data` field, parsed: the children of an `<ol>` by their elements, or one of this code's own pages. */
  datatype Page = Unparsable | Ol(children: seq<seq<Element>>) | Section(articles: seq<Article>) | OtherRoot

  datatype Module = Module(items: seq<Item>, data: Page)

  /** The item at the updates' location, if it exists yet. */
  type Store = Option<Module>

  const EMPTY_MODULE := Module([], Ol([]))

  /** The number at the end of an id text, before at most one newline; 0 if there is none. */
  function GetIndex(passed: Option<string>): nat {
    if passed.None? || passed.value == "" then 0
    else
      var s := passed.value;
      var body := if s[|s| - 1] == '\n' then s[..|s| - 1] else s;
      Value(TrailingDigits(body))
  }

  /** An id text made of any prefix, a slash and the decimal number reads back as the number. */
  lemma IndexOfIdText(prefix: string, k: nat)
    ensures GetIndex(Some(prefix + "/" + Print(k))) == k
  {
    var s := prefix + "/" + Print(k);
    assert IsDigit(s[|s| - 1]);
    TrailingDigitsAfter(prefix + "/", Print(k));
    ValueOfPrint(k);
  }

  function OrEmpty(s: Option<string>): string {
    if s.None? then "" else s.value
  }

  function JoinMarkup(es: seq<Element>): string {
    if es == [] then ""
    else if |es| == 1 then es[0].markup
    else es[0].markup + "\n" + JoinMarkup(es[1..])
  }

  /** Everything of an old entry but its first element, the header. */
  function ContentOf(entry: seq<Element>): Option<string>
    requires entry != []
  {
    if |entry| == 1 then entry[0].tail else Some(OrEmpty(entry[0].tail) + JoinMarkup(entry[1..]))
  }

  function HeaderOf(entry: seq<Element>): Option<string> {
    if entry == [] then None
    else if entry[0].tag == H2 then Some(OrEmpty(entry[0].text))
    else HeaderOf(entry[1..])
  }

  /** An old entry's header text and the rest of it. */
  datatype Body = Body(date: Option<string>, content: Option<string>)

  /** An entry without child elements is skipped. */
  function Parsed(entry: seq<Element>): (body: Option<Body>)
    ensures body.None? <==> entry == []
  {
    if entry == [] then None else Some(Body(HeaderOf(entry), ContentOf(entry)))
  }

  function ParsedAll(children: seq<seq<Element>>): (bodies: seq<Option<Body>>)
    ensures |bodies| == |children|
    ensures forall i :: 0 <= i < |children| ==> bodies[i] == Parsed(children[i])
  {
    seq(|children|, i requires 0 <= i < |children| => Parsed(children[i]))
  }

  /** The entries of an old page, newest first; of any other page, none. */
  function BodiesOf(page: Page): seq<Option<Body>> {
    if page.Ol? then ParsedAll(page.children) else []
  }

  function OldItem(id: int, body: Body): Item {
    Item(id, body.date, body.content, None)
  }

  /** The updates of an old page, newest first, numbered by distance from its end. */
  function OldItems(bodies: seq<Option<Body>>): seq<Item> {
    if bodies == [] then []
    else (if bodies[0].None? then [] else [OldItem(|bodies|, bodies[0].value)]) + OldItems(bodies[1..])
  }

  function OldLookup(bodies: seq<Option<Body>>, id: int): Option<Item> {
    if bodies == [] then None
    else if bodies[0].Some? && id == |bodies| then Some(OldItem(id, bodies[0].value))
    else OldLookup(bodies[1..], id)
  }

  datatype Answer = One(item: Item) | Many(items: seq<Item>)

  function AnswerFor(m: Module, id: nat): Answer {
    if m.items != [] then
      if 0 < id <= |m.items| then One(m.items[id - 1]) else Many(Reverse(m.items))
    else OldAnswer(BodiesOf(m.data), id)
  }

  function OldAnswer(bodies: seq<Option<Body>>, id: nat): Answer {
    if id == 0 then Many(OldItems(bodies))
    else match OldLookup(bodies, id)
      case Some(item) => One(item)
      case None => Many([])
  }

  /** The updates an edit works on, oldest first, whichever format they are in. */
  function Base(m: Module): seq<Item> {
    if m.items != [] then m.items else Reverse(OldItems(BodiesOf(m.data)))
  }

  predicate IsShown(item: Item) {
    item.status != Some(Deleted)
  }

  function Show(item: Item): Shown {
    Shown(item.id, item.date, item.content)
  }

  function ShowOne(item: Item): seq<Shown> {
    if IsShown(item) then [Show(item)] else []
  }

  function ShowAll(items: seq<Item>): seq<Shown> {
    if items == [] then []
    else ShowOne(items[0]) + ShowAll(items[1..])
  }

  function ToArticles(shown: seq<Shown>): seq<Article> {
    seq(|shown|, i requires 0 <= i < |shown| => Article(shown[i].date, shown[i].content))
  }

  /** The articles of the updates not deleted, one update at a time. */
  function Rendered(items: seq<Item>): seq<Article> {
    if items == [] then []
    else
      var last := items[|items| - 1];
      Rendered(items[..|items| - 1]) + (if IsShown(last) then [Article(last.date, last.content)] else [])
  }

  lemma RenderedPush(items: seq<Item>, item: Item)
    ensures Rendered(items + [item]) ==
            if IsShown(item) then Rendered(items) + [Article(item.date, item.content)] else Rendered(items)
  {
    assert (items + [item])[..|items|] == items;
    assert Rendered(items) + [] == Rendered(items);
  }

  lemma {:induction false} RenderedLists(items: seq<Item>)
    ensures Rendered(items) == ToArticles(ShowAll(items))
  {
    if items != [] {
      var init, last := items[..|items| - 1], items[|items| - 1];
      RenderedLists(init);
      RenderedListsPush(init, last);
      assert items == init + [last];
    }
  }

  lemma RenderedListsPush(items: seq<Item>, item: Item)
    requires Rendered(items) == ToArticles(ShowAll(items))
    ensures Rendered(items + [item]) == ToArticles(ShowAll(items + [item]))
  {
    RenderedPush(items, item);
    ShowAllConcat(items, [item]);
    ShowAllSingle(item);
    ToArticlesConcat(ShowAll(items), ShowOne(item));
  }

  lemma ShowAllSingle(item: Item)
    ensures ShowAll([item]) == ShowOne(item)
    ensures ToArticles(ShowOne(item)) == if IsShown(item) then [Article(item.date, item.content)] else []
  {
    assert [item][1..] == [];
  }

  lemma ToArticlesConcat(a: seq<Shown>, b: seq<Shown>)
    ensures ToArticles(a + b) == ToArticles(a) + ToArticles(b)
  {
  }

  function Opened(store: Store): Module {
    if store.None? then EMPTY_MODULE else store.value
  }

  /** What `get_course_updates` without an id lists: the updates not deleted, newest first. */
  function Listed(store: Store): seq<Shown> {
    ShowAll(Reverse(Base(Opened(store))))
  }

  function Saved(items: seq<Item>): Module {
    Module(items, Section(ToArticles(ShowAll(Reverse(items)))))
  }

  datatype Op =
    | Get(id: Option<string>)
    | Update(date: string, content: string, id: Option<string>)
    | Delete(id: Option<string>)

  datatype Response = BadRequest | NotFound | Single(update: Shown) | List(updates: seq<Shown>)

  function Visibly(answer: Answer): Response {
    match answer
    case One(item) => if IsShown(item) then Single(Show(item)) else NotFound
    case Many(items) => List(ShowAll(items))
  }

  function Edited(item: Item, op: Op): Item
    requires op.Update?
  {
    item.(date := Some(op.date), content := Some(op.content))
  }

  function Added(base: seq<Item>, op: Op): Item
    requires op.Update?
  {
    Item(|base| + 1, Some(op.date), Some(op.content), Some(Visible))
  }

  /** The list an operation saves, or nothing if it saves none. */
  function Revised(base: seq<Item>, op: Op): Option<seq<Item>> {
    var k := GetIndex(if op.Get? then None else op.id);
    match op
    case Get(_) => None
    case Update(_, _, None) => Some(base + [Added(base, op)])
    case Update(_, _, Some(_)) => if 0 < k <= |base| then Some(base[k - 1 := Edited(base[k - 1], op)]) else None
    case Delete(_) => if 0 < k <= |base| then Some(base[k - 1 := base[k - 1].(status := Some(Deleted))]) else None
  }

  function Step(store: Store, op: Op): (Store, Response) {
    var m := Opened(store);
    if op.Get? then (Some(m), Visibly(AnswerFor(m, GetIndex(op.id))))
    else if op.Delete? && store.None? then (store, BadRequest)
    else
      var items := Revised(Base(m), op);
      if items.None? then (Some(m), BadRequest)
      else
        (Some(Saved(items.value)),
         if op.Delete? then List(ShowAll(items.value))
         else if op.id.None? then Single(Show(items.value[|items.value| - 1]))
         else Single(Show(items.value[GetIndex(op.id) - 1])))
  }

  class CourseInfo {
    var store: Store

    constructor (store: Store)
      ensures this.store == store
    {
      this.store := store;
    }

    static method GetCourseUpdateItems(m: Module, provided: Option<string>) returns (answer: Answer)
      ensures answer == AnswerFor(m, GetIndex(provided))
    {
      var id := GetIndex(provided);
      if m.items != [] {
        if id != 0 && 0 < id <= |m.items| {
          return One(m.items[id - 1]);
        }
        return Many(Reverse(m.items));
      }
      // an unparsable page is wrapped as one `<li>` of escaped text, which has no child element
      var children := if m.data.Unparsable? then [[]] else if m.data.Ol? then m.data.children else [];
      EmptyEntryAlone(id);
      assert m.data.Unparsable? ==> ParsedAll(children) == [None];
      assert !m.data.Unparsable? ==> ParsedAll(children) == BodiesOf(m.data);
      answer := ParseOldItems(children, id);
    }

    static method ParseOldItems(children: seq<seq<Element>>, id: nat) returns (answer: Answer)
      ensures answer == OldAnswer(ParsedAll(children), id)
    {
      var items := [];
      ghost var bodies := ParsedAll(children);
      for index := 0 to |children|
        invariant OldAnswer(bodies, id) == ParseFrom(items, bodies[index..], id)
      {
        var entry := children[index];
        ParseOneMore(items, bodies[index..], id);
        assert bodies[index..][1..] == bodies[index + 1..];
        if |entry| > 0 {
          var payload := OldItem(|children| - index, Body(HeaderOf(entry), ContentOf(entry)));
          if id == 0 {
            items := items + [payload];
          } else if id == |children| - index {
            return One(payload);
          }
        }
      }
      return Many(items);
    }

    /** The updates of a module as an edit sees them, oldest first. */
    static method EditableItems(m: Module) returns (items: seq<Item>)
      ensures items == Base(m)
    {
      var answer := GetCourseUpdateItems(m, None);
      items := Reverse(answer.items);
      assert m.items != [] ==> items == m.items;
    }

    /** `_get_html`: the page that lists the updates not deleted, newest first. */
    static method GetHtml(items: seq<Item>) returns (page: Page)
      ensures page == Saved(items).data
    {
      var articles := [];
      var newest := Reverse(items);
      for i := 0 to |newest|
        invariant articles == Rendered(newest[..i])
      {
        assert newest[..i + 1] == newest[..i] + [newest[i]];
        RenderedPush(newest[..i], newest[i]);
        if newest[i].status != Some(Deleted) {
          articles := articles + [Article(newest[i].date, newest[i].content)];
        }
      }
      assert newest[..|newest|] == newest;
      RenderedLists(newest);
      page := Section(articles);
    }

    method SaveCourseUpdateItems(items: seq<Item>)
      modifies this
      ensures store == Some(Saved(items))
    {
      var data := GetHtml(items);
      store := Some(Module(items, data));
    }

    method GetOrCreate() returns (m: Module)
      modifies this
      ensures m == Opened(old(store)) && store == Some(m)
    {
      if store.None? {
        store := Some(EMPTY_MODULE);
      }
      m := store.value;
    }

    method GetCourseUpdates(op: Op) returns (response: Response)
      requires op.Get?
      modifies this
      ensures (store, response) == Step(old(store), op)
    {
      var m := GetOrCreate();
      var answer := GetCourseUpdateItems(m, op.id);
      response := Visibly(answer);
    }

    method UpdateCourseUpdates(op: Op) returns (response: Response)
      requires op.Update?
      modifies this
      ensures (store, response) == Step(old(store), op)
    {
      var m := GetOrCreate();
      var items := EditableItems(m);
      var update;
      if op.id.Some? {
        var k := GetIndex(op.id);
        if !(0 < k <= |items|) {
          return BadRequest;
        }
        update := items[k - 1];
        update := update.(date := Some(op.date));
        update := update.(content := Some(op.content));
        items := items[k - 1 := update];
      } else {
        update := Item(|items| + 1, Some(op.date), Some(op.content), Some(Visible));
        items := items + [update];
      }
      assert Revised(Base(m), op) == Some(items);
      SaveCourseUpdateItems(items);
      response := Single(Show(update));
    }

    method DeleteCourseUpdate(op: Op) returns (response: Response)
      requires op.Delete?
      modifies this
      ensures (store, response) == Step(old(store), op)
    {
      if op.id.None? || op.id.value == "" || store.None? {
        return BadRequest;
      }
      var items := EditableItems(store.value);
      var k := GetIndex(op.id);
      if !(0 < k <= |items|) {
        return BadRequest;
      }
      var item := items[k - 1];
      item := item.(status := Some(Deleted));
      items := items[k - 1 := item];
      SaveCourseUpdateItems(items);
      response := List(ShowAll(items));
    }
  }

  lemma EmptyEntryAlone(id: nat)
    ensures OldAnswer([None], id) == OldAnswer([], id)
  {
    var one: seq<Option<Body>> := [None];
    assert one[1..] == [];
  }

  /** The answer still to come, with `items` collected and `rest` unread. */
  function ParseFrom(items: seq<Item>, rest: seq<Option<Body>>, id: nat): Answer {
    if id == 0 then Many(items + OldItems(rest))
    else match OldLookup(rest, id)
      case Some(item) => One(item)
      case None => Many(items)
  }

  lemma ParseOneMore(items: seq<Item>, rest: seq<Option<Body>>, id: nat)
    requires rest != []
    ensures ParseFrom(items, rest, id) ==
            if rest[0].None? then ParseFrom(items, rest[1..], id)
            else if id == 0 then ParseFrom(items + [OldItem(|rest|, rest[0].value)], rest[1..], id)
            else if id == |rest| then One(OldItem(id, rest[0].value))
            else ParseFrom(items, rest[1..], id)
  {
    if id == 0 {
      var tail := OldItems(rest[1..]);
      if rest[0].None? {
        assert OldItems(rest) == [] + tail == tail;
      } else {
        var item := OldItem(|rest|, rest[0].value);
        assert OldItems(rest) == [item] + tail;
        assert items + ([item] + tail) == (items + [item]) + tail;
      }
    }
  }

  function Run(store: Store, ops: seq<Op>): Store {
    if ops == [] then store else Step(Run(store, ops[..|ops| - 1]), ops[|ops| - 1]).0
  }

  /** The list only grows: positions keep their id, and a deleted update stays deleted. */
  predicate Extends(a: seq<Item>, b: seq<Item>) {
    |a| <= |b| &&
    forall i :: 0 <= i < |a| ==> b[i].id == a[i].id && (a[i].status == Some(Deleted) ==> b[i].status == Some(Deleted))
  }

  lemma RevisedExtends(base: seq<Item>, op: Op)
    requires Revised(base, op).Some?
    ensures var items := Revised(base, op).value;
            Extends(base, items) && (|items| == |base| || (|items| == |base| + 1 && items[|base|].id == |items|))
  {
  }

  /** The updates after a step: the list it saved, or else the ones before. */
  lemma StepBase(store: Store, op: Op)
    ensures var base, revised := Base(Opened(store)), Revised(Base(Opened(store)), op);
            Base(Opened(Step(store, op).0)) ==
            if revised.Some? && !(op.Delete? && store.None?) then revised.value else base
  {
    var revised := Revised(Base(Opened(store)), op);
    if revised.Some? && !(op.Delete? && store.None?) {
      assert Step(store, op).0 == Some(Saved(revised.value));
      assert revised.value != [];
      BaseOfSaved(revised.value);
    }
  }

  lemma BaseOfSaved(items: seq<Item>)
    requires items != []
    ensures Base(Saved(items)) == items
  {
  }

  lemma StepExtends(store: Store, op: Op)
    ensures var a, b := Base(Opened(store)), Base(Opened(Step(store, op).0));
            Extends(a, b) && (|b| == |a| || (|b| == |a| + 1 && b[|a|].id == |b|))
  {
    StepBase(store, op);
    if Revised(Base(Opened(store)), op).Some? {
      RevisedExtends(Base(Opened(store)), op);
    }
  }

  /** Over every run, ids are never changed and deleted updates never come back, old formats included. */
  lemma {:induction false} RunExtends(store: Store, ops: seq<Op>)
    ensures Extends(Base(Opened(store)), Base(Opened(Run(store, ops))))
  {
    if ops != [] {
      RunExtends(store, ops[..|ops| - 1]);
      StepExtends(Run(store, ops[..|ops| - 1]), ops[|ops| - 1]);
    }
  }

  lemma DeletedMeansSaved(m: Module, k: nat)
    requires 0 < k <= |Base(m)| && Base(m)[k - 1].status == Some(Deleted)
    ensures m.items != [] && Base(m) == m.items
  {
    OldItemsBounds(BodiesOf(m.data));
  }

  /** A deleted update is not found by its id after any run, whatever edits, deletions and additions it holds. */
  lemma DeletedStaysHidden(store: Store, ops: seq<Op>, prefix: string, k: nat)
    requires 0 < k <= |Base(Opened(store))| && Base(Opened(store))[k - 1].status == Some(Deleted)
    ensures Step(Run(store, ops), Get(Some(prefix + "/" + Print(k)))).1 == NotFound
  {
    RunExtends(store, ops);
    DeletedMeansSaved(Opened(Run(store, ops)), k);
    IndexOfIdText(prefix, k);
  }

  /** A saved page is the rendering of exactly the listed updates, in their order. */
  predicate PageIsCurrent(store: Store) {
    store.Some? && store.value.items != [] ==>
      && store.value.data.Section? && |store.value.data.articles| == |Listed(store)|
      && forall k :: 0 <= k < |Listed(store)| ==>
           store.value.data.articles[k] == Article(Listed(store)[k].date, Listed(store)[k].content)
  }

  lemma {:induction false} PageStaysCurrent(store: Store, ops: seq<Op>)
    requires PageIsCurrent(store)
    ensures PageIsCurrent(Run(store, ops))
  {
    if ops != [] {
      PageStaysCurrent(store, ops[..|ops| - 1]);
      StepKeepsPage(Run(store, ops[..|ops| - 1]), ops[|ops| - 1]);
    }
  }

  lemma StepKeepsPage(store: Store, op: Op)
    requires PageIsCurrent(store)
    ensures PageIsCurrent(Step(store, op).0)
  {
    var t, revised := Step(store, op).0, Revised(Base(Opened(store)), op);
    if revised.Some? && t == Some(Saved(revised.value)) {
      SavedPageIsCurrent(revised.value);
    }
  }

  lemma SavedPageIsCurrent(items: seq<Item>)
    ensures PageIsCurrent(Some(Saved(items)))
  {
    if items != [] {
      BaseOfSaved(items);
    }
  }

  lemma {:induction false} ShowAllConcat(a: seq<Item>, b: seq<Item>)
    ensures ShowAll(a + b) == ShowAll(a) + ShowAll(b)
  {
    if a == [] {
      assert a + b == b;
    } else {
      ShowAllConcat(a[1..], b);
      ShowAllPush(a[0], a[1..] + b);
      ShowAllPush(a[0], a[1..]);
      assert [a[0]] + (a[1..] + b) == a + b && [a[0]] + a[1..] == a;
      ConcatAssoc(ShowOne(a[0]), ShowAll(a[1..]), ShowAll(b));
    }
  }

  lemma ShowAllPush(item: Item, items: seq<Item>)
    ensures ShowAll([item] + items) == ShowOne(item) + ShowAll(items)
  {
    assert ([item] + items)[1..] == items;
  }

  lemma ConcatAssoc<T>(a: seq<T>, b: seq<T>, c: seq<T>)
    ensures a + (b + c) == (a + b) + c
  {
  }

  lemma {:induction false} FilterReverseCommute(items: seq<Item>)
    ensures ShowAll(Reverse(items)) == Reverse(ShowAll(items))
  {
    if items != [] {
      var init, last := items[..|items| - 1], items[|items| - 1];
      FilterReverseCommute(init);
      ShowAllConcat(init, [last]);
      assert items == init + [last] && Reverse(items) == [last] + Reverse(init);
      ShowAllConcat([last], Reverse(init));
      ReverseAppend(ShowAll(init), ShowAll([last]));
    }
  }

  /** Deleting answers with the updates listed afterwards, but oldest first. */
  lemma DeleteAnswersOldestFirst(store: Store, op: Op)
    requires op.Delete? && Step(store, op).1 != BadRequest
    ensures Step(store, op).1 == List(Reverse(Listed(Step(store, op).0)))
  {
    var items := Revised(Base(Opened(store)), op).value;
    FilterReverseCommute(items);
    assert Base(Saved(items)) == items;
    assert Reverse(Reverse(ShowAll(items))) == ShowAll(items);
  }

  lemma ReverseAppend<T>(a: seq<T>, b: seq<T>)
    requires |b| <= 1
    ensures Reverse(a + b) == b + Reverse(a)
  {
    assert forall i :: 0 <= i < |a + b| ==> Reverse(a + b)[i] == (b + Reverse(a))[i];
  }

  /** Ids are positions plus one. */
  predicate Contiguous(items: seq<Item>) {
    forall i :: 0 <= i < |items| ==> items[i].id == i + 1
  }

  /** No entry with content stands above an entry without: the empty ones are the newest. */
  predicate EmptiesLead(bodies: seq<Option<Body>>) {
    forall i, j :: 0 <= i < j < |bodies| && bodies[i].Some? ==> bodies[j].Some?
  }

  predicate NoneEmpty(bodies: seq<Option<Body>>) {
    forall i :: 0 <= i < |bodies| ==> bodies[i].Some?
  }

  lemma {:induction false} OldItemsBounds(bodies: seq<Option<Body>>)
    ensures var items := OldItems(bodies);
            && |items| <= |bodies| && (|items| == |bodies| <==> NoneEmpty(bodies))
            && forall i :: 0 <= i < |items| ==> 1 <= items[i].id <= |bodies| && items[i].status == None
  {
    if bodies != [] {
      OldItemsBounds(bodies[1..]);
      assert NoneEmpty(bodies) <==> bodies[0].Some? && NoneEmpty(bodies[1..]) by {
        assert forall i :: 0 <= i < |bodies| - 1 ==> bodies[1..][i] == bodies[i + 1];
        assert forall i :: 0 < i < |bodies| ==> bodies[i] == bodies[1..][i - 1];
      }
    }
  }

  /** Newest first, ids fall by one down to one. */
  predicate CountsDown(items: seq<Item>) {
    forall i :: 0 <= i < |items| ==> items[i].id == |items| - i
  }

  lemma {:induction false} OldIdsContiguousExactly(bodies: seq<Option<Body>>)
    ensures CountsDown(OldItems(bodies)) <==> EmptiesLead(bodies)
  {
    if bodies != [] {
      var rest := bodies[1..];
      OldIdsContiguousExactly(rest);
      OldItemsBounds(rest);
      LeadTail(bodies);
      if bodies[0].Some? {
        CountsDownOneMore(OldItem(|bodies|, bodies[0].value), OldItems(rest));
      } else {
        assert OldItems(bodies) == OldItems(rest);
      }
    }
  }

  lemma CountsDownOneMore(item: Item, items: seq<Item>)
    ensures CountsDown([item] + items) <==> item.id == |items| + 1 && CountsDown(items)
  {
    var all := [item] + items;
    assert forall i :: 0 <= i < |items| ==> all[i + 1] == items[i];
    assert all[0] == item;
    if CountsDown(all) {
      forall i | 0 <= i < |items|
        ensures items[i].id == |items| - i
      {
        assert all[i + 1].id == |all| - (i + 1);
      }
    }
  }

  lemma LeadTail(bodies: seq<Option<Body>>)
    requires bodies != []
    ensures EmptiesLead(bodies) <==> EmptiesLead(bodies[1..]) && (bodies[0].None? || NoneEmpty(bodies[1..]))
  {
    var rest := bodies[1..];
    assert forall i :: 0 <= i < |rest| ==> rest[i] == bodies[i + 1];
    if EmptiesLead(rest) && (bodies[0].None? || NoneEmpty(rest)) {
      forall i, j | 0 <= i < j < |bodies| && bodies[i].Some?
        ensures bodies[j].Some?
      {
        assert bodies[j] == rest[j - 1];
        if i > 0 {
          assert bodies[i] == rest[i - 1];
        }
      }
    } else if EmptiesLead(rest) {
      var j :| 0 <= j < |rest| && rest[j].None?;
      assert bodies[j + 1].None?;
    } else {
      var i, j :| 0 <= i < j < |rest| && rest[i].Some? && rest[j].None?;
      assert bodies[i + 1].Some? && bodies[j + 1].None?;
    }
  }

  /** An old page's updates have ids equal to position plus one exactly when its empty entries are the newest ones. */
  lemma MigratedIdsExactly(page: Page)
    ensures Contiguous(Base(Module([], page))) <==> EmptiesLead(BodiesOf(page))
  {
    var items := OldItems(BodiesOf(page));
    OldIdsContiguousExactly(BodiesOf(page));
    ReverseCounts(items);
  }

  lemma ReverseCounts(items: seq<Item>)
    ensures Contiguous(Reverse(items)) <==> CountsDown(items)
  {
    if Contiguous(Reverse(items)) {
      forall i | 0 <= i < |items|
        ensures items[i].id == |items| - i
      {
        assert Reverse(items)[|items| - 1 - i] == items[i];
      }
    }
  }

  lemma ContiguousExtension(a: seq<Item>, b: seq<Item>)
    requires Extends(a, b) && (|b| == |a| || (|b| == |a| + 1 && b[|a|].id == |b|))
    ensures Contiguous(a) <==> Contiguous(b)
  {
  }

  /** No run makes ids contiguous that were not, or breaks them where they were. */
  lemma {:induction false} ContiguityIsInherited(store: Store, ops: seq<Op>)
    ensures Contiguous(Base(Opened(Run(store, ops)))) <==> Contiguous(Base(Opened(store)))
  {
    if ops != [] {
      var s := Run(store, ops[..|ops| - 1]);
      ContiguityIsInherited(store, ops[..|ops| - 1]);
      StepExtends(s, ops[|ops| - 1]);
      ContiguousExtension(Base(Opened(s)), Base(Opened(Run(store, ops))));
    }
  }

  ghost predicate DistinctIds(items: seq<Item>) {
    forall i, j :: 0 <= i < j < |items| ==> items[i].id != items[j].id
  }

  /** No id is used twice, now or by an addition to come: those get the ids above the number of updates. */
  ghost predicate IdsInRange(items: seq<Item>) {
    DistinctIds(items) && forall i :: 0 <= i < |items| ==> items[i].id <= |items|
  }

  lemma InRangeExtension(a: seq<Item>, b: seq<Item>)
    requires IdsInRange(a) && Extends(a, b) && (|b| == |a| || (|b| == |a| + 1 && b[|a|].id == |b|))
    ensures IdsInRange(b)
  {
  }

  lemma {:induction false} RunStaysInRange(store: Store, ops: seq<Op>)
    requires IdsInRange(Base(Opened(store)))
    ensures IdsInRange(Base(Opened(Run(store, ops))))
  {
    if ops != [] {
      var s := Run(store, ops[..|ops| - 1]);
      RunStaysInRange(store, ops[..|ops| - 1]);
      StepExtends(s, ops[|ops| - 1]);
      InRangeExtension(Base(Opened(s)), Base(Opened(Run(store, ops))));
    }
  }

  lemma RunAppend(store: Store, ops: seq<Op>, op: Op)
    ensures Run(store, ops + [op]) == Step(Run(store, ops), op).0
  {
    assert (ops + [op])[..|ops|] == ops;
  }

  /** `a` with `b` after it, whose ids are positions plus one. */
  ghost predicate Appended(a: seq<Item>, b: seq<Item>, n: nat) {
    && |b| == |a| + n
    && (forall i :: 0 <= i < |a| ==> b[i].id == a[i].id) && (forall i :: |a| <= i < |b| ==> b[i].id == i + 1)
  }

  lemma AddOne(base: seq<Item>, s: Store, op: Op, n: nat)
    requires op.Update? && op.id.None? && Appended(base, Base(Opened(s)), n)
    ensures Appended(base, Base(Opened(Step(s, op).0)), n + 1)
  {
    StepBase(s, op);
  }

  lemma {:induction false} AddMany(store: Store, op: Op, n: nat) returns (ops: seq<Op>)
    requires op.Update? && op.id.None?
    ensures Appended(Base(Opened(store)), Base(Opened(Run(store, ops))), n)
  {
    if n == 0 {
      ops := [];
      assert Run(store, ops) == store;
    } else {
      var before := AddMany(store, op, n - 1);
      ops := before + [op];
      RunAppend(store, before, op);
      AddOne(Base(Opened(store)), Run(store, before), op, n - 1);
    }
  }

  /**
    Over every run no two updates have the same id, exactly if that is so at the start and no id is above
    the number of updates: otherwise additions get up to that id, and it is used again.
   */
  lemma IdsNeverReusedExactly(store: Store)
    ensures (forall ops: seq<Op> :: DistinctIds(Base(Opened(Run(store, ops))))) <==> IdsInRange(Base(Opened(store)))
  {
    if IdsInRange(Base(Opened(store))) {
      forall ops: seq<Op>
        ensures DistinctIds(Base(Opened(Run(store, ops))))
      {
        RunStaysInRange(store, ops);
      }
    } else {
      var ops := RunThatReuses(store);
    }
  }

  lemma RunThatReuses(store: Store) returns (ops: seq<Op>)
    requires !IdsInRange(Base(Opened(store)))
    ensures !DistinctIds(Base(Opened(Run(store, ops))))
  {
    var base := Base(Opened(store));
    if i, j :| 0 <= i < j < |base| && base[i].id == base[j].id {
      ops := AddMany(store, Update("", "", None), 0);
      var after := Base(Opened(Run(store, ops)));
      assert after[i].id == after[j].id;
    } else {
      var i :| 0 <= i < |base| && base[i].id > |base|;
      ops := AddMany(store, Update("", "", None), base[i].id - |base|);
      var after := Base(Opened(Run(store, ops)));
      assert after[i].id == after[base[i].id - 1].id;
    }
  }

  lemma {:induction false} RisingFromOne(items: seq<Item>, i: nat)
    requires i < |items| && items[0].id >= 1
    requires forall j, k :: 0 <= j < k < |items| ==> items[j].id < items[k].id
    ensures items[i].id >= i + 1 && items[|items| - 1].id >= items[i].id + (|items| - 1 - i)
    decreases i, |items|
  {
    if i > 0 {
      RisingFromOne(items, i - 1);
    }
    if i < |items| - 1 {
      var init := items[..|items| - 1];
      RisingFromOne(init, i);
      assert items[|items| - 2].id < items[|items| - 1].id;
    }
  }

  lemma RisingInRange(items: seq<Item>)
    requires items != [] ==> items[0].id >= 1
    requires forall j, k :: 0 <= j < k < |items| ==> items[j].id < items[k].id
    ensures IdsInRange(items) <==> Contiguous(items)
  {
    if IdsInRange(items) {
      forall i | 0 <= i < |items|
        ensures items[i].id == i + 1
      {
        RisingFromOne(items, i);
      }
    }
  }

  lemma PageIdsInRange(page: Page)
    ensures IdsInRange(Base(Module([], page))) <==> EmptiesLead(BodiesOf(page))
  {
    MigratedIdsExactly(page);
    OldIdsRise(BodiesOf(page));
    RisingInRange(Reverse(OldItems(BodiesOf(page))));
  }

  lemma OldIdsRise(bodies: seq<Option<Body>>)
    ensures var items := Reverse(OldItems(bodies));
            && (items != [] ==> items[0].id >= 1)
            && forall i, j :: 0 <= i < j < |items| ==> items[i].id < items[j].id
  {
    OldIdsDiffer(bodies);
    OldItemsBounds(bodies);
  }

  /** On an old page, ids are never used twice, by any run, exactly if its empty entries are the newest. */
  lemma PageIdsNeverReusedExactly(page: Page)
    ensures (forall ops: seq<Op> :: DistinctIds(Base(Opened(Run(Some(Module([], page)), ops)))))
            <==> EmptiesLead(BodiesOf(page))
  {
    IdsNeverReusedExactly(Some(Module([], page)));
    PageIdsInRange(page);
  }

  /** Two entries with an empty one between them: one addition, and two updates have the same id. */
  lemma GapReusesId(entry: seq<Element>, op: Op) returns (store: Store)
    requires entry != [] && op.Update? && op.id.None?
    ensures store == Some(Module([], Ol([entry, [], entry])))
    ensures var items := Base(Opened(Step(store, op).0));
            |items| == 3 && items[0].id == 1 && items[1].id == 3 && items[2].id == 3
  {
    store := Some(Module([], Ol([entry, [], entry])));
    var bodies := BodiesOf(store.value.data);
    assert bodies[1..][1..] == bodies[2..] && bodies[2..][1..] == [];
    var newest, oldest := OldItem(3, bodies[0].value), OldItem(1, bodies[2].value);
    assert OldItems(bodies[2..]) == [oldest] + [] == [oldest];
    assert OldItems(bodies[1..]) == [] + [oldest] == [oldest];
    assert OldItems(bodies) == [newest, oldest];
    StepBase(store, op);
  }

  /**
    Adding an update, to either format, shows the new update above exactly the updates shown before:
    migrating an old page loses, changes and reorders nothing.
   */
  lemma AddingShowsNewThenOld(store: Store, op: Op)
    requires op.Update? && op.id.None?
    ensures var base := Base(Opened(store));
            Listed(Step(store, op).0) == [Shown(|base| + 1, Some(op.date), Some(op.content))] + Listed(store)
  {
    var base := Base(Opened(store));
    ReverseAppend(base, [Added(base, op)]);
    ShowAllConcat([Added(base, op)], Reverse(base));
  }

  /** Editing update `k` through its id text and reading it back gives the edit, if it was not deleted. */
  lemma EditReadsBack(store: Store, prefix: string, k: nat, date: string, content: string)
    requires 0 < k <= |Base(Opened(store))|
    ensures var id := Some(prefix + "/" + Print(k));
            var was := Base(Opened(store))[k - 1];
            var edited := Shown(was.id, Some(date), Some(content));
            && Step(store, Update(date, content, id)).1 == Single(edited)
            && Step(Step(store, Update(date, content, id)).0, Get(id)).1 ==
               if IsShown(was) then Single(edited) else NotFound
  {
    IndexOfIdText(prefix, k);
    EditThenGet(store, Update(date, content, Some(prefix + "/" + Print(k))), k);
  }

  lemma EditThenGet(store: Store, op: Op, k: nat)
    requires 0 < k <= |Base(Opened(store))| && op.Update? && op.id.Some? && GetIndex(op.id) == k
    ensures var was := Base(Opened(store))[k - 1];
            var edited := Shown(was.id, Some(op.date), Some(op.content));
            && Step(store, op).1 == Single(edited)
            && Step(Step(store, op).0, Get(op.id)).1 == if IsShown(was) then Single(edited) else NotFound
  {
    var base := Base(Opened(store));
    EditSaves(store, op, k);
    GetFromSaved(base[k - 1 := Edited(base[k - 1], op)], op.id);
  }

  lemma EditSaves(store: Store, op: Op, k: nat)
    requires 0 < k <= |Base(Opened(store))| && op.Update? && op.id.Some? && GetIndex(op.id) == k
    ensures var base := Base(Opened(store));
            var edited := Edited(base[k - 1], op);
            Step(store, op) == (Some(Saved(base[k - 1 := edited])), Single(Show(edited)))
  {
    var base := Base(Opened(store));
    RevisedByEdit(base, op, k);
    StepSaves(store, op, base[k - 1 := Edited(base[k - 1], op)]);
  }

  lemma RevisedByEdit(base: seq<Item>, op: Op, k: nat)
    requires 0 < k <= |base| && op.Update? && op.id.Some? && GetIndex(op.id) == k
    ensures Revised(base, op) == Some(base[k - 1 := Edited(base[k - 1], op)])
  {
  }

  lemma StepSaves(store: Store, op: Op, items: seq<Item>)
    requires op.Update? && op.id.Some? && Revised(Base(Opened(store)), op) == Some(items)
    requires 0 < GetIndex(op.id) <= |items|
    ensures Step(store, op) == (Some(Saved(items)), Single(Show(items[GetIndex(op.id) - 1])))
  {
  }

  /** Deleting the update an id text names hides it, and only it. */
  lemma DeletingHidesOnlyIt(store: Store, id: Option<string>, other: Option<string>)
    requires store.Some? && 0 < GetIndex(id) <= |Base(store.value)| && 0 < GetIndex(other) <= |Base(store.value)|
    ensures var item := Base(store.value)[GetIndex(other) - 1];
            Step(Step(store, Delete(id)).0, Get(other)).1 ==
            if GetIndex(other) == GetIndex(id) || !IsShown(item) then NotFound else Single(Show(item))
  {
    var base, k := Base(store.value), GetIndex(id);
    var items := base[k - 1 := base[k - 1].(status := Some(Deleted))];
    assert Revised(base, Delete(id)) == Some(items);
    assert Step(store, Delete(id)).0 == Some(Saved(items));
    GetFromSaved(items, other);
  }

  lemma GetFromSaved(items: seq<Item>, id: Option<string>)
    requires 0 < GetIndex(id) <= |items|
    ensures var item := items[GetIndex(id) - 1];
            Step(Some(Saved(items)), Get(id)).1 == if IsShown(item) then Single(Show(item)) else NotFound
  {
  }

  lemma {:induction false} OldLookupFinds(bodies: seq<Option<Body>>, id: int)
    ensures match OldLookup(bodies, id)
            case Some(item) => item.id == id && item in OldItems(bodies)
            case None => forall item :: item in OldItems(bodies) ==> item.id != id
  {
    if bodies != [] {
      OldLookupFinds(bodies[1..], id);
    }
  }

  lemma {:induction false} OldIdsDiffer(bodies: seq<Option<Body>>)
    ensures var items := OldItems(bodies); forall i, j :: 0 <= i < j < |items| ==> items[i].id > items[j].id
  {
    if bodies != [] {
      OldIdsDiffer(bodies[1..]);
      OldItemsBounds(bodies[1..]);
    }
  }

  ghost predicate ReadsAgree(bodies: seq<Option<Body>>, base: seq<Item>) {
    forall k: nat :: 0 < k <= |base| ==> OldLookup(bodies, k) == Some(base[k - 1])
  }

  lemma OldReadAgrees(bodies: seq<Option<Body>>, k: nat)
    requires 0 < k <= |OldItems(bodies)|
    ensures var items := OldItems(bodies);
            OldLookup(bodies, k) == Some(items[|items| - k]) <==> items[|items| - k].id == k
  {
    var items := OldItems(bodies);
    OldLookupFinds(bodies, k);
    OldIdsDiffer(bodies);
    if items[|items| - k].id == k {
      var found := OldLookup(bodies, k).value;
      var i :| 0 <= i < |items| && items[i] == found;
    }
  }

  /**
    Reading an id off an old page finds the update that the same id edits or deletes, for all ids in
    range, exactly when the page's empty entries are the newest ones.
   */
  lemma OldReadsAgreeExactly(page: Page)
    ensures ReadsAgree(BodiesOf(page), Base(Module([], page))) <==> EmptiesLead(BodiesOf(page))
  {
    MigratedIdsExactly(page);
    AgreeOnReversed(BodiesOf(page));
  }

  lemma AgreeOnReversed(bodies: seq<Option<Body>>)
    ensures ReadsAgree(bodies, Reverse(OldItems(bodies))) <==> Contiguous(Reverse(OldItems(bodies)))
  {
    var base := Reverse(OldItems(bodies));
    forall k: nat | 0 < k <= |base|
      ensures OldLookup(bodies, k) == Some(base[k - 1]) <==> base[k - 1].id == k
    {
      OldReadAgrees(bodies, k);
    }
    AgreeMeansContiguous(bodies, base);
  }

  lemma AgreeMeansContiguous(bodies: seq<Option<Body>>, base: seq<Item>)
    requires forall k: nat :: 0 < k <= |base| ==> (OldLookup(bodies, k) == Some(base[k - 1]) <==> base[k - 1].id == k)
    ensures ReadsAgree(bodies, base) <==> Contiguous(base)
  {
    if !Contiguous(base) {
      var i :| 0 <= i < |base| && base[i].id != i + 1;
      var k: nat := i + 1;
      assert OldLookup(bodies, k) != Some(base[k - 1]);
    }
  }

  // ---------------------------------------------------------------- what an old page's entries become

  /** The date of an old update is the text of its first `h2`, however many elements stand before it. */
  lemma {:induction false} DateIsFirstHeader(entry: seq<Element>, i: nat)
    requires i < |entry| && entry[i].tag == H2 && forall j :: 0 <= j < i ==> entry[j].tag != H2
    ensures HeaderOf(entry) == Some(if entry[i].text.Some? then entry[i].text.value else "")
  {
    if i > 0 {
      DateIsFirstHeader(entry[1..], i - 1);
    }
  }

  lemma {:induction false} NoHeaderNoDate(entry: seq<Element>)
    requires forall j :: 0 <= j < |entry| ==> entry[j].tag != H2
    ensures HeaderOf(entry) == None
  {
    if entry != [] {
      NoHeaderNoDate(entry[1..]);
    }
  }

  /** The content of an entry of one element is the text after it, if any. */
  lemma ContentOfOne(e: Element)
    ensures ContentOf([e]) == e.tail
  {
  }

  /** A further element adds its markup at the end, on a line of its own unless it is the first to follow the header. */
  lemma ContentGrows(entry: seq<Element>, e: Element)
    requires entry != []
    ensures var before := if ContentOf(entry).Some? then ContentOf(entry).value else "";
            ContentOf(entry + [e]) == Some(before + (if |entry| == 1 then "" else "\n") + e.markup)
  {
    var tail := OrEmpty(entry[0].tail);
    assert (entry + [e])[1..] == entry[1..] + [e];
    if |entry| == 1 {
      assert entry[1..] + [e] == [e];
      assert tail + "" + e.markup == tail + e.markup;
    } else {
      JoinGrows(entry[1..], e);
      assert tail + (JoinMarkup(entry[1..]) + "\n" + e.markup) == tail + JoinMarkup(entry[1..]) + "\n" + e.markup;
    }
  }

  lemma {:induction false} JoinGrows(es: seq<Element>, e: Element)
    requires es != []
    ensures JoinMarkup(es + [e]) == JoinMarkup(es) + "\n" + e.markup
  {
    if |es| == 1 {
      assert (es + [e])[1..] == [e];
    } else {
      JoinGrows(es[1..], e);
      assert (es + [e])[1..] == es[1..] + [e];
      var first := es[0].markup + "\n";
      assert first + (JoinMarkup(es[1..]) + "\n" + e.markup) == first + JoinMarkup(es[1..]) + "\n" + e.markup;
    }
  }

  /** What an old page with these entries lists. */
  function OldListed(children: seq<seq<Element>>): seq<Shown> {
    Listed(Some(Module([], Ol(children))))
  }

  lemma OldListedIs(children: seq<seq<Element>>)
    ensures OldListed(children) == ShowAll(OldItems(ParsedAll(children)))
  {
    var items := OldItems(ParsedAll(children));
    assert Reverse(Reverse(items)) == items;
  }

  lemma ShowOldPush(bodies: seq<Option<Body>>)
    requires bodies != []
    ensures ShowAll(OldItems(bodies)) ==
            (if bodies[0].None? then []
             else [Shown(|bodies|, bodies[0].value.date, bodies[0].value.content)]) + ShowAll(OldItems(bodies[1..]))
  {
    var rest := OldItems(bodies[1..]);
    if bodies[0].None? {
      assert [] + rest == rest && [] + ShowAll(rest) == ShowAll(rest);
    } else {
      ShowAllPush(OldItem(|bodies|, bodies[0].value), rest);
    }
  }

  lemma ParsedPush(entry: seq<Element>, below: seq<seq<Element>>)
    ensures var bodies := ParsedAll([entry] + below);
            |bodies| == |below| + 1 && bodies[0] == Parsed(entry) && bodies[1..] == ParsedAll(below)
  {
  }

  /**
    An old page lists nothing for an entry without a child element and one update for any other, above those
    of the entries below it, with the entry's date and content, and its place from the end of the page as id.
   */
  lemma OldPageListsEntry(entry: seq<Element>, below: seq<seq<Element>>)
    ensures OldListed([entry] + below) ==
            (if entry == [] then [] else [Shown(|below| + 1, HeaderOf(entry), ContentOf(entry))]) + OldListed(below)
  {
    OldListedIs(below);
    OldListedIs([entry] + below);
    ParsedPush(entry, below);
    ShowOldPush(ParsedAll([entry] + below));
  }

  lemma EmptyPageListsNothing()
    ensures OldListed([]) == []
  {
    OldListedIs([]);
  }

  /** Reading without an id lists everything visible, newest first, and creates the item if it is missing. */
  lemma GetWithoutIdLists(store: Store)
    ensures Step(store, Get(None)) ==
            (Some(if store.Some? then store.value else Module([], Ol([]))), List(Listed(store)))
  {
    var m := Opened(store);
    assert Reverse(Reverse(OldItems(BodiesOf(m.data)))) == OldItems(BodiesOf(m.data));
  }

  /** Reading an id nothing has lists everything from a saved list, and nothing from an old page. */
  lemma GetUnknownId(m: Module, id: Option<string>)
    requires GetIndex(id) > if m.items != [] then |m.items| else |BodiesOf(m.data)|
    ensures Step(Some(m), Get(id)).1 == List(if m.items != [] then Listed(Some(m)) else [])
  {
    if m.items == [] {
      OldLookupFinds(BodiesOf(m.data), GetIndex(id));
      OldItemsBounds(BodiesOf(m.data));
    }
  }

  /** An id out of range, absent or empty is refused; that changes nothing, but an edit creates a missing item first. */
  lemma RefusedExactly(store: Store, op: Op)
    requires !op.Get?
    ensures var n, k := |Base(Opened(store))|, GetIndex(op.id);
            Step(store, op).1 == BadRequest <==>
            if op.Delete? then store.None? || k == 0 || k > n else op.id.Some? && (k == 0 || k > n)
    ensures Step(store, op).1 == BadRequest ==>
              Step(store, op).0 == if op.Update? && store.None? then Some(Module([], Ol([]))) else store
  {
  }

  /** A text that does not end in a digit, or in a digit and a newline, names no update. */
  lemma NoNumberNoIndex(prefix: string, last: char)
    requires !IsDigit(last) && last != '\n'
    ensures GetIndex(Some(prefix + [last])) == 0 && GetIndex(None) == 0 && GetIndex(Some("")) == 0
  {
    var s := prefix + [last];
    assert s[|s| - 1] == last;
    assert TrailingDigits(s) == [];
  }

  /** The decimal number at the end of an id text is read whatever stands before it, and before one newline. */
  lemma IndexOfEnding(prefix: string, k: nat)
    requires prefix != [] ==> !IsDigit(prefix[|prefix| - 1])
    ensures GetIndex(Some(prefix + Print(k))) == k && GetIndex(Some(prefix + Print(k) + ['\n'])) == k
  {
    TrailingDigitsAfter(prefix, Print(k));
    ValueOfPrint(k);
    NewlineIgnored(prefix + Print(k));
  }

  lemma NewlineIgnored(s: string)
    requires s != "" && IsDigit(s[|s| - 1])
    ensures GetIndex(Some(s)) == GetIndex(Some(s + ['\n'])) == Value(TrailingDigits(s))
  {
    var line := s + ['\n'];
    assert line[|line| - 1] == '\n' && line[..|line| - 1] == s;
  }

  /** Adding stores every update there was, and after them the new one, visible and numbered by its place. */
  lemma AddedStored(store: Store, op: Op)
    requires op.Update? && op.id.None?
    ensures var base, (after, response) := Base(Opened(store)), Step(store, op);
            && after.Some?
            && after.value.items == base + [Item(|base| + 1, Some(op.date), Some(op.content), Some(Visible))]
            && response == Single(Shown(|base| + 1, Some(op.date), Some(op.content)))
  {
  }

  /** Editing stores the new date and content under the id and status there were, and every other update as it was. */
  lemma EditStored(store: Store, op: Op)
    requires op.Update? && op.id.Some? && 0 < GetIndex(op.id) <= |Base(Opened(store))|
    ensures var base, k, after := Base(Opened(store)), GetIndex(op.id) - 1, Step(store, op).0;
            && after.Some? && |after.value.items| == |base|
            && after.value.items[k] == Item(base[k].id, Some(op.date), Some(op.content), base[k].status)
            && forall i :: 0 <= i < |base| && i != k ==> after.value.items[i] == base[i]
  {
    EditSaves(store, op, GetIndex(op.id));
  }

  /** Deleting stores the update's id, date and content as they were, and every other update too. */
  lemma DeletedStored(store: Store, op: Op)
    requires op.Delete? && store.Some? && 0 < GetIndex(op.id) <= |Base(store.value)|
    ensures var base, k, after := Base(store.value), GetIndex(op.id) - 1, Step(store, op).0;
            && after.Some? && |after.value.items| == |base|
            && after.value.items[k] == Item(base[k].id, base[k].date, base[k].content, Some(Deleted))
            && forall i :: 0 <= i < |base| && i != k ==> after.value.items[i] == base[i]
  {
    var base, k := Base(store.value), GetIndex(op.id) - 1;
    assert Revised(base, op) == Some(base[k := base[k].(status := Some(Deleted))]);
  }
}
