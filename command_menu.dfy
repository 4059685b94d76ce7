/** The command palette: a case-insensitive search over six navigation actions
    and the records' names, and a cursor moved with the arrow keys. */
module CommandMenu {
  import opened Domain
  import opened Strings
  import Lists

  /** A navigation action: the section it leads to and its title. */
  datatype Action = Action(id: string, title: string)

  const Actions: seq<Action> := [
    Action("ideaGenerator", "Ir para Gerador de Ideias"),
    Action("overview", "Ir para Visão Geral"),
    Action("clusterAnalysis", "Ir para Análise de Clusters"),
    Action("businessModelAnalysis", "Ir para Modelos de Negócio"),
    Action("prioritization", "Ir para Priorização"),
    Action("serviceExplorer", "Ir para Buscador de Ideias")
  ]

  /** Section that a selected record leads to. */
  const ServiceExplorer := "serviceExplorer"

  /** Most records listed for one search. */
  const MaxServiceResults := 10

  /** `text.toLowerCase().includes(term.toLowerCase())`. */
  predicate MatchesTerm(text: string, term: string)
  {
    Contains(Lower(text), Lower(term))
  }

  function ServiceTest(term: string): Service -> bool
  {
    (s: Service) => MatchesTerm(s.service, term)
  }

  function ActionTest(term: string): Action -> bool
  {
    (a: Action) => MatchesTerm(a.title, term)
  }

  /** `filteredServices`: nothing for an empty term, else the first ten matching records. */
  function FilteredServices(services: seq<Service>, term: string): seq<Service>
  {
    if term == "" then [] else Lists.Take(Lists.Keep(services, ServiceTest(term)), MaxServiceResults)
  }

  /** An empty term lists no record. Otherwise the list is the matching records
      in their original order, cut after ten: every listed record matches, and
      when fewer than ten match, every match is listed. */
  lemma FilteredServicesSpec(services: seq<Service>, term: string)
    ensures term == "" ==> FilteredServices(services, term) == []
    ensures |FilteredServices(services, term)| <= MaxServiceResults
    ensures term != "" ==> FilteredServices(services, term) <= Lists.Keep(services, ServiceTest(term))
    ensures forall s :: s in FilteredServices(services, term) ==> s in services && MatchesTerm(s.service, term)
    ensures term != "" && Lists.Count(services, ServiceTest(term)) <= MaxServiceResults ==>
      forall s :: s in services && MatchesTerm(s.service, term) ==> s in FilteredServices(services, term)
    ensures term != "" ==> |FilteredServices(services, term)| ==
                           if Lists.Count(services, ServiceTest(term)) <= MaxServiceResults
                           then Lists.Count(services, ServiceTest(term)) else MaxServiceResults
  {
    var kept := Lists.Keep(services, ServiceTest(term));
    forall s | s in FilteredServices(services, term) ensures s in services && MatchesTerm(s.service, term) {
      assert s in kept;
      Lists.KeepMembership(services, ServiceTest(term), s);
    }
    if term != "" && Lists.Count(services, ServiceTest(term)) <= MaxServiceResults {
      forall s | s in services && MatchesTerm(s.service, term) ensures s in FilteredServices(services, term) {
        Lists.KeepMembership(services, ServiceTest(term), s);
      }
    }
  }

  /** The actions whose title contains the term, case-insensitively. */
  function FilteredActions(actions: seq<Action>, term: string): seq<Action>
  {
    Lists.Keep(actions, ActionTest(term))
  }

  /** An entry of the palette. */
  datatype Item = ActionItem(action: Action) | ServiceItem(svc: Service)

  /** `allItems`: the matching actions, then the matching records. The palette
      passes `Actions`. */
  function AllItems(actions: seq<Action>, services: seq<Service>, term: string): (items: seq<Item>)
    ensures |items| == |FilteredActions(actions, term)| + |FilteredServices(services, term)|
  {
    var shown := FilteredActions(actions, term);
    var found := FilteredServices(services, term);
    seq(|shown|, k requires 0 <= k < |shown| => ActionItem(shown[k]))
      + seq(|found|, k requires 0 <= k < |found| => ServiceItem(found[k]))
  }

  /** Actions always come before records, each listed item is a matching action
      or a listed record, and an empty term lists every action and nothing else. */
  lemma AllItemsSpec(actions: seq<Action>, services: seq<Service>, term: string)
    ensures var items := AllItems(actions, services, term);
      forall i, j :: 0 <= i < j < |items| && items[j].ActionItem? ==> items[i].ActionItem?
    ensures var items := AllItems(actions, services, term);
      forall k :: 0 <= k < |items| ==>
        if k < |FilteredActions(actions, term)|
        then items[k] == ActionItem(FilteredActions(actions, term)[k])
        else items[k] == ServiceItem(FilteredServices(services, term)[k - |FilteredActions(actions, term)|])
    ensures term == "" ==> AllItems(actions, services, term) == seq(|actions|, k requires 0 <= k < |actions| => ActionItem(actions[k]))
  {
    var shown := FilteredActions(actions, term);
    var found := FilteredServices(services, term);
    var listed := seq(|shown|, k requires 0 <= k < |shown| => ActionItem(shown[k]));
    var matched := seq(|found|, k requires 0 <= k < |found| => ServiceItem(found[k]));
    var items := AllItems(actions, services, term);
    assert items == listed + matched;
    forall k | 0 <= k < |items|
      ensures if k < |shown| then items[k] == ActionItem(shown[k]) else items[k] == ServiceItem(found[k - |shown|])
    {
      if k < |shown| {
        assert items[k] == listed[k];
      } else {
        assert items[k] == matched[k - |shown|];
      }
    }
    if term == "" {
      forall a | a in actions ensures ActionTest(term)(a) {
        ContainsEmpty(Lower(a.title));
      }
      Lists.KeepTrue(actions, ActionTest(term));
    }
  }

  // ---------------------------------------------------------------- cursor

  /** `allItems.length || 1`. */
  function Modulus(len: nat): nat
  {
    if len == 0 then 1 else len
  }

  /** ArrowDown: `(prev + 1) % (len || 1)`. */
  function NextIndex(prev: nat, len: nat): nat
  {
    (prev + 1) % Modulus(len)
  }

  /** ArrowUp: `(prev - 1 + (len || 1)) % (len || 1)`; `prev` is never negative,
      so the dividend is not negative either and truncating and Euclidean
      remainders agree. */
  function PrevIndex(prev: nat, len: nat): nat
  {
    (prev + Modulus(len) - 1) % Modulus(len)
  }

  lemma ModOfSmall(x: int, m: int)
    requires 0 <= x < m
    ensures x % m == x
  {
  }

  lemma ModOfWrap(x: int, m: int)
    requires m <= x < 2 * m
    ensures x % m == x - m
  {
  }

  /** Down moves to the next item and wraps from the last to the first. */
  lemma NextIndexSpec(prev: nat, len: nat)
    requires prev < Modulus(len)
    ensures NextIndex(prev, len) == if prev + 1 < Modulus(len) then prev + 1 else 0
  {
    if prev + 1 < Modulus(len) {
      ModOfSmall(prev + 1, Modulus(len));
    } else {
      ModOfWrap(prev + 1, Modulus(len));
    }
  }

  /** Up moves to the previous item and wraps from the first to the last. */
  lemma PrevIndexSpec(prev: nat, len: nat)
    requires prev < Modulus(len)
    ensures PrevIndex(prev, len) == if prev > 0 then prev - 1 else Modulus(len) - 1
  {
    if prev > 0 {
      ModOfWrap(prev + Modulus(len) - 1, Modulus(len));
    } else {
      ModOfSmall(Modulus(len) - 1, Modulus(len));
    }
  }

  /** The cursor stays in [0, max(len, 1)) whatever it was before, and for a
      cursor in range "up" undoes "down" and "down" undoes "up". */
  lemma CursorSpec(prev: nat, len: nat)
    ensures NextIndex(prev, len) < Modulus(len) && PrevIndex(prev, len) < Modulus(len)
    ensures prev < Modulus(len) ==> PrevIndex(NextIndex(prev, len), len) == prev && NextIndex(PrevIndex(prev, len), len) == prev
  {
    if prev < Modulus(len) {
      NextIndexSpec(prev, len);
      PrevIndexSpec(prev, len);
      PrevIndexSpec(NextIndex(prev, len), len);
      NextIndexSpec(PrevIndex(prev, len), len);
    }
  }

  // ---------------------------------------------------------------- selection and keys

  /** What the palette asks of its host. */
  datatype Effect = NoEffect | Close | NavigateAndClose(section: string)

  /** `handleSelect`; `None` stands for the `undefined` of an index past the end. */
  function Select(item: Option<Item>): Effect
  {
    match item
    case None => NoEffect
    case Some(ActionItem(a)) => NavigateAndClose(a.id)
    case Some(ServiceItem(_)) => NavigateAndClose(ServiceExplorer)
  }

  function ItemAt(items: seq<Item>, index: nat): Option<Item>
  {
    if index < |items| then Some(items[index]) else None
  }

  datatype Key = ArrowDown | ArrowUp | Enter | Escape | OtherKey

  /** The keydown handler on the current items: the new cursor and the effect. */
  function KeyResult(isOpen: bool, key: Key, index: nat, items: seq<Item>): (nat, Effect)
  {
    if !isOpen then (index, NoEffect)
    else match key
      case ArrowDown => (NextIndex(index, |items|), NoEffect)
      case ArrowUp => (PrevIndex(index, |items|), NoEffect)
      case Enter => (index, Select(ItemAt(items, index)))
      case Escape => (index, Close)
      case OtherKey => (index, NoEffect)
  }

  /** Keys do nothing while closed; Escape closes; arrows only move the cursor,
      within range; Enter on an action navigates to its section, on a record to
      the explorer, and past the end does nothing at all. */
  lemma KeyResultSpec(isOpen: bool, key: Key, index: nat, items: seq<Item>)
    ensures !isOpen ==> KeyResult(isOpen, key, index, items) == (index, NoEffect)
    ensures isOpen && key == Escape ==> KeyResult(isOpen, key, index, items).1 == Close
    ensures isOpen && (key == ArrowDown || key == ArrowUp) ==>
      KeyResult(isOpen, key, index, items).1 == NoEffect && KeyResult(isOpen, key, index, items).0 < Modulus(|items|)
    ensures isOpen && key == Enter ==>
      && (index >= |items| ==> KeyResult(isOpen, key, index, items).1 == NoEffect)
      && (index < |items| && items[index].ActionItem? ==>
            KeyResult(isOpen, key, index, items).1 == NavigateAndClose(items[index].action.id))
      && (index < |items| && items[index].ServiceItem? ==>
            KeyResult(isOpen, key, index, items).1 == NavigateAndClose(ServiceExplorer))
  {
    CursorSpec(index, |items|);
  }

  /** The palette's own sections: the last action leads to the record explorer. */
  lemma ServiceExplorerIsAnAction()
    ensures Actions[|Actions| - 1].id == ServiceExplorer
  {
  }

  /** Every effect a key can produce either does nothing, closes, or navigates
      to the section of one of the six actions. */
  lemma EffectsNavigateToKnownSections(isOpen: bool, key: Key, index: nat, actions: seq<Action>, services: seq<Service>, term: string)
    ensures var e := KeyResult(isOpen, key, index, AllItems(actions, services, term)).1;
      e.NavigateAndClose? ==> e.section == ServiceExplorer || exists a :: a in actions && a.id == e.section
  {
    var items := AllItems(actions, services, term);
    var e := KeyResult(isOpen, key, index, items).1;
    if e.NavigateAndClose? {
      AllItemsSpec(actions, services, term);
      if items[index].ActionItem? {
        var shown := FilteredActions(actions, term);
        assert items[index].action == shown[index];
        Lists.KeepMembership(actions, ActionTest(term), shown[index]);
      }
    }
  }

  class Menu {
    /** Whether the host shows the palette. */
    var isOpen: bool
    var searchTerm: string
    var activeIndex: nat
    /** `navigationActions`, fixed when the palette is created. */
    const actions: seq<Action>

    constructor (open: bool)
      ensures isOpen == open && searchTerm == "" && activeIndex == 0
      ensures actions == Actions
    {
      actions := Actions;
      isOpen := open;
      searchTerm := "";
      activeIndex := 0;
    }

    /** The host opens or closes the palette; opening clears the term and the cursor. */
    method SetOpen(open: bool)
      modifies this
      ensures isOpen == open
      ensures if open && !old(isOpen) then searchTerm == "" && activeIndex == 0
              else searchTerm == old(searchTerm) && activeIndex == old(activeIndex)
    {
      if open && !isOpen {
        searchTerm := "";
        activeIndex := 0;
      }
      isOpen := open;
    }

    /** Typing in the search box; a different term puts the cursor back on the first item. */
    method SetSearchTerm(term: string)
      modifies this
      ensures searchTerm == term && isOpen == old(isOpen)
      ensures activeIndex == if term != old(searchTerm) then 0 else old(activeIndex)
    {
      if term != searchTerm {
        activeIndex := 0;
      }
      searchTerm := term;
    }

    /** The keydown listener over the current record list. */
    method KeyDown(key: Key, services: seq<Service>) returns (e: Effect)
      modifies this
      ensures (activeIndex, e) == KeyResult(old(isOpen), key, old(activeIndex), AllItems(actions, services, old(searchTerm)))
      ensures isOpen == old(isOpen) && searchTerm == old(searchTerm)
    {
      var items := AllItems(actions, services, searchTerm);
      var r := KeyResult(isOpen, key, activeIndex, items);
      activeIndex, e := r.0, r.1;
    }
  }
}
