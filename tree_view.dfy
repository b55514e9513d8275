/**
 * The data shaping and the search, selection, colour and filter rules of
 * components/tree/family-tree-view.tsx.
 *
 * The tree endpoint sends nodes keyed by `personId` and links between person ids; the view
 * relabels both ends of every link with the person's name and gives every node its name as
 * `id`, so the chart works on names. The chart's node key is therefore `Option<string>`:
 * a node without a name has an undefined id.
 */
module TreeView {
  import opened Wrappers
  import JsText
  import opened TreeGraph

  /** One entry of the endpoint's `nodes`, every field as the server may or may not send it. */
  datatype RawNode = RawNode(
    personId: Option<int>, ownerId: Option<string>, name: Option<string>, gender: Option<string>,
    level: Option<int>, dob: Option<string>, dod: Option<string>, desc: Option<string>,
    description: Option<string>, photoUrl: Option<string>)

  /** One entry of the endpoint's `links`: parent and child person ids. */
  datatype RawLink = RawLink(source: int, target: int)

  /** The endpoint's answer: `nodes` and `links` when they are arrays, `None` otherwise. */
  datatype RawTree = RawTree(nodes: Option<seq<RawNode>>, links: Option<seq<RawLink>>)

  /** What the chart is given: every node with its name as id, and the links between names. */
  datatype TreeData = TreeData(nodes: seq<NodeRec<Option<string>, RawNode>>, links: seq<Link<string>>)

  datatype Gender = M | F | O

  datatype Person = Person(
    personId: int, ownerId: string, chartId: string, name: string, gender: Gender, level: int,
    dob: Option<string>, dod: Option<string>, description: Option<string>, photoUrl: Option<string>)

  // ---------------------------------------------------------------------------------------
  // The links and nodes handed to the chart (lines 111-138)
  // ---------------------------------------------------------------------------------------

  /** `node.personId && node.name`: a non-zero id and a non-empty name. */
  predicate HasNameEntry(n: RawNode) {
    n.personId.Some? && n.personId.value != 0 && n.name.Some? && n.name.value != ""
  }

  /** `personIdToName` after the loop over the first `|nodes|` nodes: a later entry replaces an earlier one. */
  function NameMap(nodes: seq<RawNode>): (m: map<int, string>)
    ensures forall k | k in m :: m[k] != ""
  {
    if nodes == [] then map[]
    else
      var n := nodes[|nodes| - 1];
      var m := NameMap(nodes[..|nodes| - 1]);
      if HasNameEntry(n) then m[n.personId.value := n.name.value] else m
  }

  /** The loop that fills `personIdToName` (lines 115-120). */
  method BuildNameMap(nodes: seq<RawNode>) returns (m: map<int, string>)
    ensures m == NameMap(nodes)
  {
    m := map[];
    for i := 0 to |nodes|
      invariant m == NameMap(nodes[..i])
    {
      var n := nodes[i];
      assert nodes[..i + 1][..i] == nodes[..i];
      if n.personId.Some? && n.personId.value != 0 && n.name.Some? && n.name.value != "" {
        m := m[n.personId.value := n.name.value];
      }
    }
    assert nodes[..|nodes|] == nodes;
  }

  /**
   * An id is in the map exactly when some node has it with a name, and then it holds the
   * name of the last such node.
   */
  lemma {:induction false} NameMapLast(nodes: seq<RawNode>, k: int)
    ensures k in NameMap(nodes) <==>
      exists i | 0 <= i < |nodes| :: HasNameEntry(nodes[i]) && nodes[i].personId.value == k
    ensures k in NameMap(nodes) ==>
      exists i | 0 <= i < |nodes| :: HasNameEntry(nodes[i]) && nodes[i].personId.value == k
        && NameMap(nodes)[k] == nodes[i].name.value
        && forall j | i < j < |nodes| :: !(HasNameEntry(nodes[j]) && nodes[j].personId.value == k)
  {
    if nodes != [] {
      var front, n := nodes[..|nodes| - 1], nodes[|nodes| - 1];
      NameMapLast(front, k);
      assert forall i | 0 <= i < |front| :: front[i] == nodes[i];
      if HasNameEntry(n) && n.personId.value == k {
        assert HasNameEntry(nodes[|nodes| - 1]);
      } else if k in NameMap(front) {
        var i :| 0 <= i < |front| && HasNameEntry(front[i]) && front[i].personId.value == k
          && NameMap(front)[k] == front[i].name.value
          && forall j | i < j < |front| :: !(HasNameEntry(front[j]) && front[j].personId.value == k);
        assert HasNameEntry(nodes[i]) && nodes[i].personId.value == k;
      }
    }
  }

  /** `personIdToName.get(id) || String(id)`: the name when there is one, else the id's decimal text. */
  function Endpoint(names: map<int, string>, id: int): (s: string)
    ensures id in names && names[id] != "" ==> s == names[id]
    ensures id !in names || names[id] == "" ==> s == JsText.IntToString(id)
  {
    JsText.OrElse(if id in names then Some(names[id]) else None, JsText.IntToString(id))
  }

  /** `rawLinks.map(...)`: both ends of every link relabelled, in the same order. */
  function ShapeLinks(names: map<int, string>, links: seq<RawLink>): (r: seq<Link<string>>)
    ensures |r| == |links|
    ensures forall i | 0 <= i < |links| ::
      r[i] == Link(Endpoint(names, links[i].source), Endpoint(names, links[i].target))
  {
    seq(|links|, i requires 0 <= i < |links| => Link(Endpoint(names, links[i].source), Endpoint(names, links[i].target)))
  }

  /** `rawNodes.map(node => ({...node, id: node.name}))`. */
  function ShapeNodes(nodes: seq<RawNode>): (r: seq<NodeRec<Option<string>, RawNode>>)
    ensures |r| == |nodes|
    ensures forall i | 0 <= i < |nodes| :: r[i].id == nodes[i].name && r[i].data == nodes[i]
  {
    seq(|nodes|, i requires 0 <= i < |nodes| => NodeRec(nodes[i].name, nodes[i]))
  }

  /** `validTreeData`: a part that is not an array counts as an empty list. */
  function Shape(raw: RawTree): TreeData {
    var nodes := raw.nodes.GetOr([]);
    TreeData(ShapeNodes(nodes), ShapeLinks(NameMap(nodes), raw.links.GetOr([])))
  }

  /**
   * Every link end of the shaped data: the name of the last node carrying that person id
   * with a name, or, when there is none, a text that `parseInt` reads back as the id.
   */
  lemma ShapedLinkEnd(raw: RawTree, i: nat, id: int)
    requires raw.links.Some? && i < |raw.links.value|
    requires id == raw.links.value[i].source || id == raw.links.value[i].target
    ensures var nodes := raw.nodes.GetOr([]);
      var l := Shape(raw).links[i];
      var end := if id == raw.links.value[i].source then l.source else l.target;
      && (id in NameMap(nodes) ==>
            exists j | 0 <= j < |nodes| :: HasNameEntry(nodes[j]) && nodes[j].personId.value == id
              && end == nodes[j].name.value
              && forall j' | j < j' < |nodes| :: !(HasNameEntry(nodes[j']) && nodes[j'].personId.value == id))
      && (id !in NameMap(nodes) ==>
            (forall j | 0 <= j < |nodes| :: !(HasNameEntry(nodes[j]) && nodes[j].personId.value == id))
            && JsText.ParseInt(end) == Some(id))
  {
    var nodes := raw.nodes.GetOr([]);
    NameMapLast(nodes, id);
    JsText.ParseIntOfIntToString(id);
  }

  /** A response whose `nodes` is not an array gives no nodes, and every link keeps its ids as text. */
  lemma ShapeWithoutNodes(raw: RawTree)
    requires raw.nodes.None?
    ensures Shape(raw).nodes == []
    ensures var links := raw.links.GetOr([]);
      forall i | 0 <= i < |links| ::
        JsText.ParseInt(Shape(raw).links[i].source) == Some(links[i].source)
        && JsText.ParseInt(Shape(raw).links[i].target) == Some(links[i].target)
  {
    var links := raw.links.GetOr([]);
    forall i | 0 <= i < |links|
      ensures JsText.ParseInt(Shape(raw).links[i].source) == Some(links[i].source)
      ensures JsText.ParseInt(Shape(raw).links[i].target) == Some(links[i].target)
    {
      JsText.ParseIntOfIntToString(links[i].source);
      JsText.ParseIntOfIntToString(links[i].target);
    }
  }

  /** The links as the chart's adjacency sees them: its keys are optional names. */
  function ChartLinks(links: seq<Link<string>>): (r: seq<Link<Option<string>>>)
    ensures |r| == |links|
    ensures forall i | 0 <= i < |links| :: r[i] == Link(Some(links[i].source), Some(links[i].target))
  {
    seq(|links|, i requires 0 <= i < |links| => Link(Some(links[i].source), Some(links[i].target)))
  }

  // ---------------------------------------------------------------------------------------
  // The people of a published tree, read from its nodes (lines 151-163)
  // ---------------------------------------------------------------------------------------

  /** The gender rule: "male"/"M" and "female"/"F", anything else is other. */
  function GenderOf(g: Option<string>): (r: Gender)
    ensures r == M <==> g == Some("male") || g == Some("M")
    ensures r == F <==> g == Some("female") || g == Some("F")
  {
    if g == Some("male") || g == Some("M") then M
    else if g == Some("female") || g == Some("F") then F
    else O
  }

  /** `x || 0` for a number: a missing value and 0 both give 0. */
  function NumberOrZero(v: Option<int>): (r: int)
    ensures v.Some? ==> r == v.value
    ensures v.None? ==> r == 0
  {
    if v.Some? && v.value != 0 then v.value else 0
  }

  /** `x || null` for an optional text: a missing value and "" both give null. */
  function TextOrNull(v: Option<string>): (r: Option<string>)
    ensures r.Some? <==> v.Some? && v.value != ""
    ensures r.Some? ==> r == v
  {
    if v.Some? && v.value != "" then v else None
  }

  /** The person a node of a published tree stands for. */
  function ReadOnlyPerson(chartId: string, n: RawNode): (p: Person)
    ensures p.chartId == chartId && p.name != ""
    ensures n.name.Some? && n.name.value != "" ==> p.name == n.name.value
    ensures n.name.None? || n.name.value == "" ==> p.name == "Unknown"
    ensures p.gender == GenderOf(n.gender)
    ensures p.personId == NumberOrZero(n.personId) && p.level == NumberOrZero(n.level)
    ensures p.description == (if TextOrNull(n.desc).Some? then n.desc else TextOrNull(n.description))
  {
    Person(
      NumberOrZero(n.personId), JsText.OrElse(n.ownerId, ""), chartId,
      JsText.OrElse(n.name, "Unknown"), GenderOf(n.gender), NumberOrZero(n.level),
      TextOrNull(n.dob), TextOrNull(n.dod),
      if TextOrNull(n.desc).Some? then TextOrNull(n.desc) else TextOrNull(n.description),
      TextOrNull(n.photoUrl))
  }

  /** The people of a published tree, one per node, in node order. */
  function ReadOnlyPeople(chartId: string, nodes: seq<RawNode>): (ps: seq<Person>)
    ensures |ps| == |nodes| && forall i | 0 <= i < |nodes| :: ps[i] == ReadOnlyPerson(chartId, nodes[i])
  {
    seq(|nodes|, i requires 0 <= i < |nodes| => ReadOnlyPerson(chartId, nodes[i]))
  }

  /** A person as normalisation leaves one: a name, and no optional text that is empty. */
  predicate Normal(p: Person) {
    && p.name != ""
    && (p.dob.Some? ==> p.dob.value != "") && (p.dod.Some? ==> p.dod.value != "")
    && (p.description.Some? ==> p.description.value != "") && (p.photoUrl.Some? ==> p.photoUrl.value != "")
  }

  function GenderText(g: Gender): string {
    match g
    case M => "M"
    case F => "F"
    case O => "O"
  }

  /** The node a published tree holds for a person. */
  function NodeOf(p: Person): RawNode {
    RawNode(Some(p.personId), Some(p.ownerId), Some(p.name), Some(GenderText(p.gender)), Some(p.level),
            p.dob, p.dod, None, p.description, p.photoUrl)
  }

  /** Normalisation gives back every normal person from its node. */
  lemma ReadOnlyOfNode(p: Person)
    requires Normal(p)
    ensures ReadOnlyPerson(p.chartId, NodeOf(p)) == p
  {
  }

  /** Normalisation changes nothing more when applied to its own result. */
  lemma ReadOnlyNormal(chartId: string, n: RawNode)
    ensures Normal(ReadOnlyPerson(chartId, n))
    ensures ReadOnlyPerson(chartId, NodeOf(ReadOnlyPerson(chartId, n))) == ReadOnlyPerson(chartId, n)
  {
    ReadOnlyOfNode(ReadOnlyPerson(chartId, n));
  }

  // ---------------------------------------------------------------------------------------
  // Filtering and finding people
  // ---------------------------------------------------------------------------------------

  /** `ps.filter(keep)`: the people `keep` accepts, in their order. */
  function Keep(ps: seq<Person>, keep: Person -> bool): (r: seq<Person>)
    ensures |r| <= |ps|
  {
    if ps == [] then []
    else Keep(ps[..|ps| - 1], keep) + (if keep(ps[|ps| - 1]) then [ps[|ps| - 1]] else [])
  }

  /** A person is kept exactly when it is one of `ps` and accepted. */
  lemma {:induction false} KeepMember(ps: seq<Person>, keep: Person -> bool, p: Person)
    ensures p in Keep(ps, keep) <==> p in ps && keep(p)
  {
    if ps != [] {
      var front := ps[..|ps| - 1];
      KeepMember(front, keep, p);
      assert ps == front + [ps[|ps| - 1]];
    }
  }

  /** Filtering keeps the order: the kept people of `a + b` are those of `a`, then those of `b`. */
  lemma {:induction false} KeepAppend(a: seq<Person>, b: seq<Person>, keep: Person -> bool)
    ensures Keep(a + b, keep) == Keep(a, keep) + Keep(b, keep)
    decreases |b|
  {
    if b == [] {
      assert a + b == a;
    } else {
      var front, last := b[..|b| - 1], b[|b| - 1];
      assert (a + b)[..|a + b| - 1] == a + front;
      KeepAppend(a, front, keep);
    }
  }

  /** When everyone is accepted, everyone is kept; when no one is, no one is. */
  lemma {:induction false} KeepAllOrNone(ps: seq<Person>, keep: Person -> bool)
    ensures (forall i | 0 <= i < |ps| :: keep(ps[i])) ==> Keep(ps, keep) == ps
    ensures (forall i | 0 <= i < |ps| :: !keep(ps[i])) ==> Keep(ps, keep) == []
  {
    if ps != [] {
      var front := ps[..|ps| - 1];
      assert forall i | 0 <= i < |front| :: front[i] == ps[i];
      KeepAllOrNone(front, keep);
      assert ps == front + [ps[|ps| - 1]];
    }
  }

  /** `ps.find(want)`, by index: the first person `want` accepts. */
  function FindFirst(ps: seq<Person>, want: Person -> bool): (r: Option<nat>)
    ensures r.Some? ==> r.value < |ps| && want(ps[r.value]) && forall j | 0 <= j < r.value :: !want(ps[j])
    ensures r.None? ==> forall j | 0 <= j < |ps| :: !want(ps[j])
  {
    if ps == [] then None
    else if want(ps[0]) then Some(0)
    else
      assert forall j | 1 <= j < |ps| :: ps[1..][j - 1] == ps[j];
      match FindFirst(ps[1..], want)
      case None => None
      case Some(i) => Some(i + 1)
  }

  /** `people.find(p => p.name === name)` */
  function FindByName(ps: seq<Person>, name: string): (r: Option<Person>)
    ensures r.Some? ==>
      exists i | 0 <= i < |ps| :: ps[i] == r.value && r.value.name == name && forall j | 0 <= j < i :: ps[j].name != name
    ensures r.None? ==> forall j | 0 <= j < |ps| :: ps[j].name != name
  {
    var i := FindFirst(ps, (p: Person) => p.name == name);
    if i.Some? then Some(ps[i.value]) else None
  }

  /** `people.find(p => p.personId === id)` */
  function FindById(ps: seq<Person>, id: int): (r: Option<Person>)
    ensures r.Some? ==>
      exists i | 0 <= i < |ps| :: ps[i] == r.value && r.value.personId == id && forall j | 0 <= j < i :: ps[j].personId != id
    ensures r.None? ==> forall j | 0 <= j < |ps| :: ps[j].personId != id
  {
    var i := FindFirst(ps, (p: Person) => p.personId == id);
    if i.Some? then Some(ps[i.value]) else None
  }

  /** The search results for `term`: the people whose lower-cased name contains the lower-cased term. */
  function SearchMatches(ps: seq<Person>, term: string, lower: string -> string): seq<Person> {
    Keep(ps, (p: Person) => JsText.Includes(lower(p.name), lower(term)))
  }

  /** A person is a result exactly when its lower-cased name contains the lower-cased, untrimmed term. */
  lemma SearchMatchesMember(ps: seq<Person>, term: string, lower: string -> string, p: Person)
    ensures p in SearchMatches(ps, term, lower) <==> p in ps && JsText.Includes(lower(p.name), lower(term))
  {
    KeepMember(ps, (p: Person) => JsText.Includes(lower(p.name), lower(term)), p);
  }

  /** The results keep the order of the people list. */
  lemma SearchMatchesOrder(a: seq<Person>, b: seq<Person>, term: string, lower: string -> string)
    ensures SearchMatches(a + b, term, lower) == SearchMatches(a, term, lower) + SearchMatches(b, term, lower)
  {
    KeepAppend(a, b, (p: Person) => JsText.Includes(lower(p.name), lower(term)));
  }

  /** The people list under the level filter (lines 422-427): all with no filter, else those at the parsed level. */
  function LevelFilter(ps: seq<Person>, filter: string): seq<Person> {
    if filter == "" then ps else Keep(ps, (p: Person) => JsText.ParseInt(filter) == Some(p.level))
  }

  /** With no filter everyone shows; a filter that does not parse shows no one. */
  lemma LevelFilterBounds(ps: seq<Person>, filter: string)
    ensures filter == "" ==> LevelFilter(ps, filter) == ps
    ensures filter != "" && JsText.ParseInt(filter).None? ==> LevelFilter(ps, filter) == []
  {
    KeepAllOrNone(ps, (p: Person) => JsText.ParseInt(filter) == Some(p.level));
  }

  /** A filter that parses shows exactly the people at that level. */
  lemma LevelFilterMember(ps: seq<Person>, filter: string, p: Person)
    requires filter != ""
    ensures p in LevelFilter(ps, filter) <==> p in ps && JsText.ParseInt(filter) == Some(p.level)
  {
    KeepMember(ps, (p: Person) => JsText.ParseInt(filter) == Some(p.level), p);
  }

  /** Typing the decimal text of a level shows the people at that level. */
  lemma LevelFilterOfLevel(ps: seq<Person>, level: int, p: Person)
    ensures p in LevelFilter(ps, JsText.IntToString(level)) <==> p in ps && p.level == level
  {
    JsText.ParseIntOfIntToString(level);
    LevelFilterMember(ps, JsText.IntToString(level), p);
  }

  // ---------------------------------------------------------------------------------------
  // Colours (lines 212-219 and 369-372)
  // ---------------------------------------------------------------------------------------

  /** Some link has the name at one of its ends. */
  predicate Mentioned(links: seq<Link<string>>, name: string) {
    exists i | 0 <= i < |links| :: links[i].source == name || links[i].target == name
  }

  const Unlinked: string := "#FEF3C7"
  const Blue: string := "#DBEAFE"
  const Pink: string := "#FCE7F3"
  const Grey: string := "#E5E7EB"
  const Unknown: string := "#F3F4F6"

  /** `getPersonColor`: light yellow without relationships, else by gender. */
  function PersonColor(links: seq<Link<string>>, p: Person): (c: string)
    ensures c == Unlinked <==> !Mentioned(links, p.name)
    ensures Mentioned(links, p.name) ==>
      (c == Blue <==> p.gender == M) && (c == Pink <==> p.gender == F) && (c == Grey <==> p.gender == O)
  {
    if !Mentioned(links, p.name) then Unlinked
    else match p.gender
      case M => Blue
      case F => Pink
      case O => Grey
  }

  /** The colour the chart asks for by name: that of the first person with the name, else light grey. */
  function ChartColor(ps: seq<Person>, links: seq<Link<string>>, name: string): (c: string)
    ensures (forall j | 0 <= j < |ps| :: ps[j].name != name) <==> c == Unknown
  {
    match FindByName(ps, name)
    case None => Unknown
    case Some(p) => PersonColor(links, p)
  }

  /** The chart colour of a name is the person colour of the first person with that name. */
  lemma ChartColorOfFirst(ps: seq<Person>, links: seq<Link<string>>, j: nat)
    requires j < |ps| && forall j' | 0 <= j' < j :: ps[j'].name != ps[j].name
    ensures ChartColor(ps, links, ps[j].name) == PersonColor(links, ps[j])
  {
    var i :| 0 <= i < |ps| && ps[i] == FindByName(ps, ps[j].name).value && ps[i].name == ps[j].name
      && forall j' | 0 <= j' < i :: ps[j'].name != ps[j].name;
    assert i == j;
  }

  // ---------------------------------------------------------------------------------------
  // The view's state and its handlers (lines 40-63, 175-209, 433-436)
  // ---------------------------------------------------------------------------------------

  class View {
    var people: seq<Person>
    /** `familyTreeData.links` */
    var links: seq<Link<string>>
    var searchTerm: string
    var searchResults: seq<Person>
    var focusedPerson: Option<string>
    var selectedPerson: Option<Person>
    var sidebarOpen: bool
    var levelFilter: string

    constructor()
      ensures people == [] && links == [] && searchTerm == "" && searchResults == []
      ensures focusedPerson == None && selectedPerson == None && !sidebarOpen && levelFilter == ""
    {
      people, links, searchTerm, searchResults := [], [], "", [];
      focusedPerson, selectedPerson, sidebarOpen, levelFilter := None, None, false, "";
    }

    /** `handleSearch(term)`: a blank term empties the results and clears the focus. */
    method HandleSearch(term: string, lower: string -> string)
      modifies this`searchTerm, this`searchResults, this`focusedPerson
      ensures searchTerm == term
      ensures JsText.IsBlank(term) ==> searchResults == [] && focusedPerson == None
      ensures !JsText.IsBlank(term) ==>
        searchResults == SearchMatches(people, term, lower) && focusedPerson == old(focusedPerson)
    {
      searchTerm := term;
      if JsText.Trim(term) != "" {
        searchResults := SearchMatches(people, term, lower);
      } else {
        searchResults := [];
        focusedPerson := None;
      }
    }

    /** `clearSearch` */
    method ClearSearch()
      modifies this`searchTerm, this`searchResults, this`focusedPerson
      ensures searchTerm == "" && searchResults == [] && focusedPerson == None
    {
      searchTerm, searchResults, focusedPerson := "", [], None;
    }

    /** `handleSearchResultClick(person)`: focus the person, show its name as the term, close the results. */
    method HandleSearchResultClick(person: Person)
      modifies this`searchTerm, this`searchResults, this`focusedPerson
      ensures focusedPerson == Some(person.name) && searchTerm == person.name && searchResults == []
    {
      focusedPerson := Some(person.name);
      searchTerm := person.name;
      searchResults := [];
    }

    /** `handleNodeClick(name)`: select the first person with that name and open the sidebar, if there is one. */
    method HandleNodeClick(name: string)
      modifies this`selectedPerson, this`sidebarOpen
      ensures FindByName(people, name).None? ==> selectedPerson == old(selectedPerson) && sidebarOpen == old(sidebarOpen)
      ensures FindByName(people, name).Some? ==> selectedPerson == FindByName(people, name) && sidebarOpen
    {
      var person := FindByName(people, name);
      if person.Some? {
        selectedPerson := person;
        sidebarOpen := true;
      }
    }

    /** A click on a card of the people list. */
    method SelectPerson(person: Person)
      modifies this`selectedPerson, this`sidebarOpen
      ensures selectedPerson == Some(person) && sidebarOpen
    {
      selectedPerson := Some(person);
      sidebarOpen := true;
    }

    /** New people: the selected person is replaced by the entry with the same id, if any. */
    method PeopleChanged(ps: seq<Person>)
      modifies this`people, this`selectedPerson
      ensures people == ps
      ensures old(selectedPerson).Some? && ps != [] && FindById(ps, old(selectedPerson).value.personId).Some?
        ==> selectedPerson == FindById(ps, old(selectedPerson).value.personId)
      ensures old(selectedPerson).None? || ps == [] || FindById(ps, old(selectedPerson).value.personId).None?
        ==> selectedPerson == old(selectedPerson)
    {
      people := ps;
      if selectedPerson.Some? && |ps| > 0 {
        var updated := FindById(ps, selectedPerson.value.personId);
        if updated.Some? {
          selectedPerson := updated;
        }
      }
    }

    /**
     * The tree has arrived (`setFamilyTreeData`, line 138): the chart's links are the shaped
     * links of the answer, and nothing else changes.
     */
    method TreeLoaded(raw: RawTree)
      modifies this`links
      ensures links == Shape(raw).links
    {
      links := Shape(raw).links;
    }

    /** Typing in the level box, or clearing it. */
    method SetLevelFilter(value: string)
      modifies this`levelFilter
      ensures levelFilter == value
    {
      levelFilter := value;
    }

    /** The background of a person's card (line 432). */
    function CardColor(p: Person): string
      reads this`links
    {
      PersonColor(links, p)
    }

    /** The `getPersonColor` the chart is given (lines 369-371): looked up by name. */
    function NodeColor(name: string): string
      reads this`people, this`links
    {
      ChartColor(people, links, name)
    }

    /** The cards shown under the current level filter. */
    function ShownPeople(): seq<Person>
      reads this`people, this`levelFilter
    {
      LevelFilter(people, levelFilter)
    }
  }
}
