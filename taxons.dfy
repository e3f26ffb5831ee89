/**
 * Taxonomies: a tree of taxon definitions (each covering one of the store's
 * kinds of entity) and the levels built from it. The walks read the store
 * through abstract tables: the child definitions of each definition, in the
 * order the store lists them, and the level rows by id.
 */
module Taxons {
  import opened Common

  /** `DPMBase`: what a taxon definition or level stands for. */
  datatype DpmBase = Domain | Project | Phase | Task

  /** The text a `DPMBase` is stored as (`auto()` gives the lower-case member name). */
  function BaseText(b: DpmBase): string
  {
    match b
    case Domain => "domain"
    case Project => "project"
    case Phase => "phase"
    case Task => "task"
  }

  /** `DPMBase(text)`: the member with that value, None where Python raises `ValueError`. */
  function ParseBase(s: string): (r: Option<DpmBase>)
    ensures r.Some? ==> BaseText(r.value) == s
  {
    if s == "domain" then Some(Domain)
    else if s == "project" then Some(Project)
    else if s == "phase" then Some(Phase)
    else if s == "task" then Some(Task)
    else None
  }

  /** Storing a `DPMBase` as text and reading it back gives the same member. */
  lemma {:induction false} BaseRoundTrip(b: DpmBase)
    ensures ParseBase(BaseText(b)) == Some(b)
  {
    match b
    case Domain =>
    case Project =>
      assert "project" != "domain" by { assert "project"[0] != "domain"[0]; }
    case Phase =>
      assert "phase"[1] != "domain"[1] && "phase"[0] != "project"[1];
    case Task =>
      assert "task"[0] != "domain"[0] && "task"[0] != "project"[0] && "task"[0] != "phase"[0];
  }

  datatype TaxonError =
    /** A stored type text that is not a `DPMBase` value (`ValueError`). */
    | NotADpmBase
    /** `add_child` given a definition covering something it cannot add. */
    | NoSuchType
    /** An upward walk that visited more levels than its bound. */
    | StepLimit

  datatype TaxonDef = TaxonDef(name: string, nameLower: string, coversDpm: string, allowMultiple: bool,
                               parentId: Option<Id>)

  datatype TaxonLevel = TaxonLevel(name: string, nameLower: string, taxoType: string, taxonDefId: Id,
                                   parentLevelId: Option<Id>, domainName: Option<string>,
                                   projectId: Option<Id>, phaseId: Option<Id>, taskId: Option<Id>,
                                   description: Option<string>)

  // ---------------------------------------------------------------------------
  // Searching the definitions below a definition.

  /** A child definition as the store hands it back: its id and its lower-cased name. */
  datatype DefEntry = DefEntry(id: Id, nameLower: string)

  /**
   * The store's answer to "the definitions whose parent is this id", for
   * each parent id (None for the definitions without a parent).
   */
  type Children = map<Option<Id>, seq<DefEntry>>

  function Kids(c: Children, parent: Option<Id>): seq<DefEntry>
  {
    if parent in c then c[parent] else []
  }

  /** What `get_child_by_name` ends with; `TooDeep` is Python's `RecursionError`. */
  datatype Search = Found(entry: DefEntry) | NotFound | TooDeep

  /**
   * The loop of `get_child_by_name` over one list of children: each child is
   * tested before its own descendants, and the first hit wins.
   */
  function FindAmong(c: Children, kids: seq<DefEntry>, key: string, fuel: nat): (r: Search)
    ensures r.Found? ==> r.entry.nameLower == key
    decreases fuel, 1, |kids|
  {
    if |kids| == 0 then NotFound
    else if kids[0].nameLower == key then Found(kids[0])
    else
      var below := FindBelow(c, Some(kids[0].id), key, fuel);
      if below.NotFound? then FindAmong(c, kids[1..], key, fuel) else below
  }

  /** `get_child_by_name` on the definition with id `parent`; `fuel` bounds the recursion depth. */
  function FindBelow(c: Children, parent: Option<Id>, key: string, fuel: nat): (r: Search)
    ensures r.Found? ==> r.entry.nameLower == key
    decreases fuel, 0, 0
  {
    if fuel == 0 then TooDeep else FindAmong(c, Kids(c, parent), key, fuel - 1)
  }

  /** The descendants of a list of children in pre-order; None when deeper than `fuel`. */
  function ListAmong(c: Children, kids: seq<DefEntry>, fuel: nat): Option<seq<DefEntry>>
    decreases fuel, 1, |kids|
  {
    if |kids| == 0 then Some([])
    else
      match ListBelow(c, Some(kids[0].id), fuel)
      case None => None
      case Some(sub) =>
        match ListAmong(c, kids[1..], fuel)
        case None => None
        case Some(rest) => Some([kids[0]] + sub + rest)
  }

  /** The descendants of one definition in pre-order. */
  function ListBelow(c: Children, parent: Option<Id>, fuel: nat): Option<seq<DefEntry>>
    decreases fuel, 0, 0
  {
    if fuel == 0 then None else ListAmong(c, Kids(c, parent), fuel - 1)
  }

  /** The first entry of a listing with the given lower-cased name. */
  function FirstNamed(xs: seq<DefEntry>, key: string): (r: Option<DefEntry>)
    ensures r.Some? ==> r.value in xs && r.value.nameLower == key
    ensures r.None? <==> forall i :: 0 <= i < |xs| ==> xs[i].nameLower != key
  {
    if |xs| == 0 then None
    else if xs[0].nameLower == key then Some(xs[0])
    else
      var r := FirstNamed(xs[1..], key);
      assert forall i :: 1 <= i < |xs| ==> xs[i] == xs[1..][i - 1];
      r
  }

  lemma {:induction false} FirstNamedAppend(xs: seq<DefEntry>, ys: seq<DefEntry>, key: string)
    ensures FirstNamed(xs + ys, key) == if FirstNamed(xs, key).Some? then FirstNamed(xs, key) else FirstNamed(ys, key)
    decreases |xs|
  {
    if |xs| == 0 {
      assert xs + ys == ys;
    } else {
      assert (xs + ys)[1..] == xs[1..] + ys;
      FirstNamedAppend(xs[1..], ys, key);
    }
  }

  function AsSearch(e: Option<DefEntry>): Search
  {
    if e.Some? then Found(e.value) else NotFound
  }

  /**
   * Wherever the descendants fit within the recursion bound, the search
   * answers with the first descendant in pre-order that has the name, and
   * with NotFound when none has.
   */
  lemma {:induction false} FindAmongIsFirstInPreOrder(c: Children, kids: seq<DefEntry>, key: string, fuel: nat)
    requires ListAmong(c, kids, fuel).Some?
    ensures FindAmong(c, kids, key, fuel) == AsSearch(FirstNamed(ListAmong(c, kids, fuel).value, key))
    decreases fuel, 1, |kids|
  {
    if |kids| > 0 {
      var sub := ListBelow(c, Some(kids[0].id), fuel).value;
      var rest := ListAmong(c, kids[1..], fuel).value;
      assert ListAmong(c, kids, fuel).value == [kids[0]] + (sub + rest);
      if kids[0].nameLower != key {
        assert ([kids[0]] + (sub + rest))[1..] == sub + rest;
        FirstNamedAppend(sub, rest, key);
        FindBelowIsFirstInPreOrder(c, Some(kids[0].id), key, fuel);
        FindAmongIsFirstInPreOrder(c, kids[1..], key, fuel);
      }
    }
  }

  lemma {:induction false} FindBelowIsFirstInPreOrder(c: Children, parent: Option<Id>, key: string, fuel: nat)
    requires ListBelow(c, parent, fuel).Some?
    ensures FindBelow(c, parent, key, fuel) == AsSearch(FirstNamed(ListBelow(c, parent, fuel).value, key))
    decreases fuel, 0, 0
  {
    FindAmongIsFirstInPreOrder(c, Kids(c, parent), key, fuel - 1);
  }

  /** `TaxonDefRecord`: a definition row and its id, changed in place by the setters. */
  class TaxonDefRecord {
    var id: Option<Id>
    var row: TaxonDef

    constructor(id: Option<Id>, row: TaxonDef)
      ensures this.id == id && this.row == row
    {
      this.id := id;
      this.row := row;
    }

    /** The `name` setter: the lookup key follows the name. */
    method SetName(v: string)
      modifies this
      ensures row == old(row).(name := v, nameLower := Lower(v)) && id == old(id)
    {
      row := row.(name := v, nameLower := Lower(v));
    }

    /** The `covers_dpm` getter; None where the stored text raises `ValueError`. */
    function CoversDpm(): (r: Option<DpmBase>)
      reads this
      ensures r.Some? ==> BaseText(r.value) == row.coversDpm
    {
      ParseBase(row.coversDpm)
    }

    /** The `covers_dpm` setter stores the text; the getter then reads back the same value. */
    method SetCoversDpm(b: DpmBase)
      modifies this
      ensures row == old(row).(coversDpm := BaseText(b)) && id == old(id)
      ensures CoversDpm() == Some(b)
    {
      row := row.(coversDpm := BaseText(b));
      BaseRoundTrip(b);
    }

    /** `get_child_by_name`: the first descendant, in pre-order, whose name matches ignoring case. */
    function GetChildByName(c: Children, name: string, fuel: nat): (r: Search)
      reads this
      ensures r.Found? ==> r.entry.nameLower == Lower(name)
      ensures ListBelow(c, id, fuel).Some? ==> r == AsSearch(FirstNamed(ListBelow(c, id, fuel).value, Lower(name)))
    {
      if ListBelow(c, id, fuel).Some? then
        FindBelowIsFirstInPreOrder(c, id, Lower(name), fuel);
        FindBelow(c, id, Lower(name), fuel)
      else
        FindBelow(c, id, Lower(name), fuel)
    }

    /** `__eq__`: only a record with an id equals another, and only one with the same id. */
    predicate Equals(other: TaxonDefRecord?)
      reads this, other
    {
      other != null && SameRecord(id, other.id)
    }

    /**
     * `delete_from_db`: for a record with an id, hands that id to the store's
     * delete and clears it; otherwise does nothing. Returns the id handed over.
     */
    method DeleteFromDb() returns (deleted: Option<Id>)
      modifies this
      ensures deleted == old(id) && id.None? && row == old(row)
    {
      deleted := id;
      if id.Some? {
        id := None;
      }
    }
  }

  // ---------------------------------------------------------------------------
  // Levels.

  /** `parent_level`: the row a parent id names, or None for no id or a missing row. */
  function Lookup(levels: map<Id, TaxonLevel>, parentId: Option<Id>): (r: Option<Id>)
    ensures r.Some? ==> r.value in levels && r == parentId
  {
    if parentId.Some? && parentId.value in levels then parentId else None
  }

  /** The level reached after following `k` more parent links from the row `first` names. */
  function Ancestor(levels: map<Id, TaxonLevel>, first: Option<Id>, k: nat): (r: Option<Id>)
    ensures r.Some? ==> r.value in levels
    decreases k
  {
    if Lookup(levels, first).None? then None
    else if k == 0 then first
    else Ancestor(levels, levels[first.value].parentLevelId, k - 1)
  }

  lemma {:induction false} AncestorStep(levels: map<Id, TaxonLevel>, first: Option<Id>, k: nat)
    requires Ancestor(levels, first, k).Some?
    ensures Ancestor(levels, first, k + 1) == Lookup(levels, levels[Ancestor(levels, first, k).value].parentLevelId)
    decreases k
  {
    if k > 0 {
      AncestorStep(levels, levels[first.value].parentLevelId, k - 1);
    }
  }

  /** The walk went past the `j`-th ancestor: it exists and is a valid, non-domain level. */
  ghost predicate PassedOver(levels: map<Id, TaxonLevel>, first: Option<Id>, j: nat)
  {
    var a := Ancestor(levels, first, j);
    a.Some? && ParseBase(levels[a.value].taxoType).Some? && ParseBase(levels[a.value].taxoType) != Some(Domain)
  }

  /** What `domain_level` returns: the level itself, an ancestor, or None. */
  datatype DomainFound = ItSelf | AncestorLevel(id: Id) | NoDomain

  /**
   * The walk of `domain_level` from the level the id `p` names, with `steps`
   * links left to follow: the first level of domain type, None when the
   * chain ends first, an error for a level whose type does not parse, and
   * `StepLimit` when the links run on past the bound.
   */
  ghost function DomainAbove(levels: map<Id, TaxonLevel>, p: Option<Id>, steps: nat): Result<DomainFound, TaxonError>
    decreases steps
  {
    var a := Lookup(levels, p);
    if a.None? then Ok(NoDomain)
    else if steps == 0 then Err(StepLimit)
    else if ParseBase(levels[a.value].taxoType).None? then Err(NotADpmBase)
    else if ParseBase(levels[a.value].taxoType) == Some(Domain) then Ok(AncestorLevel(a.value))
    else DomainAbove(levels, levels[a.value].parentLevelId, steps - 1)
  }

  /** What `domain_level` answers for the level `row`: itself when it is a domain level, else the walk above it. */
  ghost function DomainOf(levels: map<Id, TaxonLevel>, row: TaxonLevel, limit: nat): Result<DomainFound, TaxonError>
  {
    if ParseBase(row.taxoType).None? then Err(NotADpmBase)
    else if ParseBase(row.taxoType) == Some(Domain) then Ok(ItSelf)
    else DomainAbove(levels, row.parentLevelId, limit)
  }

  /** Whom `add_project_level` passes as `parent_level`. */
  datatype ParentArg = NoParent | ThisLevel

  /**
   * The store call a level's `add_child` makes, with its arguments: the
   * store's three `add_taxon_level_for_*` operations.
   */
  datatype LevelRequest =
    | ForProject(domainLevel: DomainFound, defId: Option<Id>, name: string, parent: ParentArg, description: Option<string>)
    | ForPhase(defId: Option<Id>, name: string, description: Option<string>)
    | ForTask(defId: Option<Id>, name: string, description: Option<string>)

  /** `TaxonLevelRecord`: a level row and its id, changed in place by the setters. */
  class TaxonLevelRecord {
    var id: Option<Id>
    var row: TaxonLevel

    constructor(id: Option<Id>, row: TaxonLevel)
      ensures this.id == id && this.row == row
    {
      this.id := id;
      this.row := row;
    }

    method SetName(v: string)
      modifies this
      ensures row == old(row).(name := v, nameLower := Lower(v)) && id == old(id)
    {
      row := row.(name := v, nameLower := Lower(v));
    }

    /** The `taxo_type` getter; None where the stored text raises `ValueError`. */
    function TaxoType(): (r: Option<DpmBase>)
      reads this
      ensures r.Some? ==> BaseText(r.value) == row.taxoType
    {
      ParseBase(row.taxoType)
    }

    /**
     * `domain_level`: the level itself when it is a domain level; otherwise
     * the nearest ancestor of domain type, walking `parent_level` links up to
     * `limit` of them, and None when the chain ends first.
     */
    method DomainLevel(levels: map<Id, TaxonLevel>, limit: nat) returns (r: Result<DomainFound, TaxonError>)
      ensures TaxoType().None? ==> r == Err(NotADpmBase)
      ensures r == Ok(ItSelf) <==> TaxoType() == Some(Domain)
      ensures r.Ok? && r.value.AncestorLevel? ==>
                exists k :: 0 <= k < limit && Ancestor(levels, row.parentLevelId, k) == Some(r.value.id) &&
                            ParseBase(levels[r.value.id].taxoType) == Some(Domain) &&
                            forall j :: 0 <= j < k ==> PassedOver(levels, row.parentLevelId, j)
      ensures r == Ok(NoDomain) ==>
                exists k :: 0 <= k <= limit && Ancestor(levels, row.parentLevelId, k).None? &&
                            forall j :: 0 <= j < k ==> PassedOver(levels, row.parentLevelId, j)
      ensures r == Err(NotADpmBase) && TaxoType().Some? ==>
                exists k :: 0 <= k < limit && Ancestor(levels, row.parentLevelId, k).Some? &&
                            ParseBase(levels[Ancestor(levels, row.parentLevelId, k).value].taxoType).None? &&
                            forall j :: 0 <= j < k ==> PassedOver(levels, row.parentLevelId, j)
      ensures r == Err(StepLimit) ==> forall j :: 0 <= j < limit ==> PassedOver(levels, row.parentLevelId, j)
      ensures r != Err(NoSuchType)
      ensures r == DomainOf(levels, row, limit)
    {
      var self := TaxoType();
      if self.None? {
        return Err(NotADpmBase);
      }
      if self.value == Domain {
        return Ok(ItSelf);
      }
      ghost var first := row.parentLevelId;
      ghost var at := first;
      var parent := Lookup(levels, row.parentLevelId);
      var k := 0;
      while parent.Some?
        invariant k <= limit
        invariant parent == Ancestor(levels, first, k)
        invariant forall j :: 0 <= j < k ==> PassedOver(levels, first, j)
        invariant parent == Lookup(levels, at)
        invariant DomainAbove(levels, first, limit) == DomainAbove(levels, at, limit - k)
        decreases limit - k
      {
        if k == limit {
          return Err(StepLimit);
        }
        var t := ParseBase(levels[parent.value].taxoType);
        if t.None? {
          return Err(NotADpmBase);
        }
        if t.value == Domain {
          return Ok(AncestorLevel(parent.value));
        }
        assert PassedOver(levels, first, k);
        AncestorStep(levels, first, k);
        at := levels[parent.value].parentLevelId;
        parent := Lookup(levels, levels[parent.value].parentLevelId);
        k := k + 1;
      }
      return Ok(NoDomain);
    }

    /**
     * `add_project_level`: the domain level found by `domain_level`, and this
     * level as the parent unless it is the domain level itself.
     */
    method AddProjectLevel(levels: map<Id, TaxonLevel>, limit: nat, def: TaxonDefRecord, name: string,
                           description: Option<string>)
      returns (r: Result<LevelRequest, TaxonError>)
      ensures TaxoType() == Some(Domain) ==> r == Ok(ForProject(ItSelf, def.id, name, NoParent, description))
      ensures TaxoType().Some? && TaxoType() != Some(Domain) && r.Ok? ==>
                r.value.ForProject? && r.value.parent == ThisLevel && r.value.domainLevel != ItSelf
      ensures TaxoType().None? ==> r == Err(NotADpmBase)
      ensures r != Err(NoSuchType)
      ensures r.Ok? ==> r.value.ForProject? && r.value.defId == def.id && r.value.name == name &&
                        r.value.description == description
      ensures r.Err? <==> DomainOf(levels, row, limit).Err?
      ensures r.Err? ==> r.error == DomainOf(levels, row, limit).error
      ensures r.Ok? ==> r.value.domainLevel == DomainOf(levels, row, limit).value
    {
      var domain := DomainLevel(levels, limit);
      if domain.Err? {
        return Err(domain.error);
      }
      var parent := if TaxoType() == Some(Domain) then NoParent else ThisLevel;
      r := Ok(ForProject(domain.value, def.id, name, parent, description));
    }

    /**
     * `add_child`: dispatches on what the definition covers: a project level,
     * a phase level or a task level; anything else raises.
     */
    method AddChild(levels: map<Id, TaxonLevel>, limit: nat, def: TaxonDefRecord, name: string,
                    description: Option<string>)
      returns (r: Result<LevelRequest, TaxonError>)
      ensures def.CoversDpm().None? ==> r == Err(NotADpmBase)
      ensures def.CoversDpm() == Some(Domain) ==> r == Err(NoSuchType)
      ensures def.CoversDpm() == Some(Phase) ==> r == Ok(ForPhase(def.id, name, description))
      ensures def.CoversDpm() == Some(Task) ==> r == Ok(ForTask(def.id, name, description))
      ensures def.CoversDpm() == Some(Project) ==>
                (r.Ok? ==> r.value.ForProject? && r.value.defId == def.id && r.value.name == name) &&
                (TaxoType() == Some(Domain) ==> r == Ok(ForProject(ItSelf, def.id, name, NoParent, description))) &&
                (r.Err? <==> DomainOf(levels, row, limit).Err?) &&
                (r.Ok? ==> r.value.domainLevel == DomainOf(levels, row, limit).value)
      ensures r.Err? && r.error == NoSuchType <==> def.CoversDpm() == Some(Domain)
    {
      var covers := def.CoversDpm();
      if covers.None? {
        return Err(NotADpmBase);
      }
      match covers.value
      case Project =>
        r := AddProjectLevel(levels, limit, def, name, description);
      case Phase =>
        r := Ok(ForPhase(def.id, name, description));
      case Task =>
        r := Ok(ForTask(def.id, name, description));
      case Domain =>
        r := Err(NoSuchType);
    }

    /** `__eq__`: only a record with an id equals another, and only one with the same id. */
    predicate Equals(other: TaxonLevelRecord?)
      reads this, other
    {
      other != null && SameRecord(id, other.id)
    }

    /**
     * `delete_from_db`: for a record with an id, hands that id to the store's
     * delete and clears it; otherwise does nothing. Returns the id handed over.
     */
    method DeleteFromDb() returns (deleted: Option<Id>)
      modifies this
      ensures deleted == old(id) && id.None? && row == old(row)
    {
      deleted := id;
      if id.Some? {
        id := None;
      }
    }
  }
}
