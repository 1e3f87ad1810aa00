/** The catalog's entities: standards, their directed relationships, outcome profiles, and the
    caller-owned filter and path state. */
module Standards {
  import opened Wrappers

  datatype ControlFamily = Security | Privacy | BCM | ServiceMgmt | RiskGovernance | AIGovernance

  datatype EdgeType = Precedes | Complementary | Supersedes | Overlaps

  datatype Status = Active | Deprecated | Superseded

  /** A relationship stored on its source standard. */
  datatype RelatedEdge = RelatedEdge(target: string, edgeType: EdgeType, weight: Option<real>, note: Option<string>)

  datatype StandardNode = StandardNode(
    id: string,
    title: string,
    summary: string,
    url: string,
    tags: seq<string>,
    families: seq<ControlFamily>,
    version: Option<string>,
    status: Option<Status>,
    jurisdiction: Option<seq<string>>,
    related: seq<RelatedEdge>)

  datatype Phase = Phase(name: string, items: seq<string>)

  /** `weights` lists the profile's weight entries in the order `Object.entries` yields them. */
  datatype OutcomeProfile = OutcomeProfile(
    id: string,
    name: string,
    description: string,
    weights: seq<(ControlFamily, real)>,
    phases: seq<Phase>,
    required: Option<seq<string>>)

  datatype FilterState = FilterState(
    profile: Option<string>,
    families: seq<ControlFamily>,
    tags: seq<string>,
    search: string,
    showWhyMatters: bool)

  datatype PathState = PathState(selectedStandards: seq<string>, customOrder: seq<string>)

  /** The six control families in their canonical order. */
  const Families: seq<ControlFamily> := [Security, Privacy, BCM, ServiceMgmt, RiskGovernance, AIGovernance]

  lemma EveryFamilyListed(f: ControlFamily)
    ensures f in Families
  {
  }

  function FamilyName(f: ControlFamily): string {
    match f
    case Security => "Security"
    case Privacy => "Privacy"
    case BCM => "BCM"
    case ServiceMgmt => "ServiceMgmt"
    case RiskGovernance => "RiskGovernance"
    case AIGovernance => "AIGovernance"
  }

  /** The canonical name of a family, if `s` is one. */
  function ParseFamily(s: string): (r: Option<ControlFamily>)
    ensures r.Some? ==> FamilyName(r.value) == s
    ensures forall f :: FamilyName(f) == s ==> r == Some(f)
  {
    if s == "Security" then Some(Security)
    else if s == "Privacy" then Some(Privacy)
    else if s == "BCM" then Some(BCM)
    else if s == "ServiceMgmt" then Some(ServiceMgmt)
    else if s == "RiskGovernance" then Some(RiskGovernance)
    else if s == "AIGovernance" then Some(AIGovernance)
    else None
  }

  function EdgeTypeName(t: EdgeType): string {
    match t
    case Precedes => "precedes"
    case Complementary => "complementary"
    case Supersedes => "supersedes"
    case Overlaps => "overlaps"
  }

  /** The canonical name of an edge type, if `s` is one. */
  function ParseEdgeType(s: string): (r: Option<EdgeType>)
    ensures r.Some? ==> EdgeTypeName(r.value) == s
    ensures forall t :: EdgeTypeName(t) == s ==> r == Some(t)
  {
    if s == "precedes" then Some(Precedes)
    else if s == "complementary" then Some(Complementary)
    else if s == "supersedes" then Some(Supersedes)
    else if s == "overlaps" then Some(Overlaps)
    else None
  }

  /** The status names the strict schema accepts. */
  function ParseStatus(s: string): (r: Option<Status>)
    ensures r.Some? <==> s in {"active", "deprecated", "superseded"}
    ensures s == "active" ==> r == Some(Active)
    ensures s == "deprecated" ==> r == Some(Deprecated)
    ensures s == "superseded" ==> r == Some(Superseded)
  {
    if s == "active" then Some(Active)
    else if s == "deprecated" then Some(Deprecated)
    else if s == "superseded" then Some(Superseded)
    else None
  }
}
