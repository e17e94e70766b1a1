/**
  The `Project` entity of the portfolio: its constructor defaults, its setters and
  the comma-separated `technologies` column read and written as a list.
 */
module ProjectEntity {
  import opened Wrappers
  import opened PhpText
  import opened UserEntity

  datatype Project = Project(
    id: Option<int>,
    title: Option<string>,
    smallDescription: Option<string>,
    description: Option<string>,
    bannerImage: Option<string>,
    images: seq<string>,
    link: Option<string>,
    technologies: Option<string>,
    madeBy: Option<string>,
    createdAt: Timestamp)

  /** The constructor: every column null, no images, created at `now`. */
  function NewProject(now: Timestamp): (p: Project)
    ensures p.id == None && p.title == None && p.description == None && p.technologies == None
    ensures p.images == [] && p.createdAt == now
  {
    Project(None, None, None, None, None, [], None, None, None, now)
  }

  // ---------------------------------------------------------------------------
  // technologies as a list
  // ---------------------------------------------------------------------------

  /** `getTechnologiesArray`: a null or falsy ("" or "0") column gives no entry; otherwise the pieces between commas, untrimmed. */
  function GetTechnologiesArray(p: Project): (r: seq<string>)
    ensures p.technologies.None? || IsEmpty(p.technologies.value) ==> r == []
    ensures p.technologies.Some? && IsTruthy(p.technologies.value) ==>
              |r| == Count(p.technologies.value, ',') + 1
    ensures forall i :: 0 <= i < |r| ==> ',' !in r[i]
  {
    if p.technologies.Some? && IsTruthy(p.technologies.value) then Split(p.technologies.value, ',') else []
  }

  /** `setTechnologiesFromArray`: the entries joined with commas. */
  function SetTechnologiesFromArray(p: Project, technologies: seq<string>): (r: Project)
    ensures r.technologies == Some(Join(technologies, ','))
    ensures r.(technologies := p.technologies) == p
  {
    p.(technologies := Some(Join(technologies, ',')))
  }

  /** Reading a truthy column as a list and joining it back gives the column. */
  lemma TechnologiesJoinRoundTrip(p: Project)
    requires p.technologies.Some? && IsTruthy(p.technologies.value)
    ensures Join(GetTechnologiesArray(p), ',') == p.technologies.value
  {
    JoinSplit(p.technologies.value, ',');
  }

  /** Writing a list without commas and reading it back gives the list, unless it joins to a falsy string. */
  lemma TechnologiesListRoundTrip(p: Project, technologies: seq<string>)
    requires forall i :: 0 <= i < |technologies| ==> ',' !in technologies[i]
    requires IsTruthy(Join(technologies, ','))
    ensures GetTechnologiesArray(SetTechnologiesFromArray(p, technologies)) == technologies
  {
    assert technologies != [];
    SplitJoin(technologies, ',');
  }

  /** The empty list round-trips; the lists [""] and ["0"] join to falsy strings and come back empty. */
  lemma FalsyTechnologyLists(p: Project)
    ensures GetTechnologiesArray(SetTechnologiesFromArray(p, [])) == []
    ensures GetTechnologiesArray(SetTechnologiesFromArray(p, [""])) == []
    ensures GetTechnologiesArray(SetTechnologiesFromArray(p, ["0"])) == []
  {
  }

  // ---------------------------------------------------------------------------
  // setters
  // ---------------------------------------------------------------------------

  function SetTitle(p: Project, title: string): (r: Project)
    ensures r.title == Some(title) && r.(title := p.title) == p
  {
    p.(title := Some(title))
  }

  function SetSmallDescription(p: Project, smallDescription: Option<string>): (r: Project)
    ensures r.smallDescription == smallDescription && r.(smallDescription := p.smallDescription) == p
  {
    p.(smallDescription := smallDescription)
  }

  function SetDescription(p: Project, description: string): (r: Project)
    ensures r.description == Some(description) && r.(description := p.description) == p
  {
    p.(description := Some(description))
  }

  function SetBannerImage(p: Project, bannerImage: Option<string>): (r: Project)
    ensures r.bannerImage == bannerImage && r.(bannerImage := p.bannerImage) == p
  {
    p.(bannerImage := bannerImage)
  }

  function SetImages(p: Project, images: seq<string>): (r: Project)
    ensures r.images == images && r.(images := p.images) == p
  {
    p.(images := images)
  }

  function SetLink(p: Project, link: Option<string>): (r: Project)
    ensures r.link == link && r.(link := p.link) == p
  {
    p.(link := link)
  }

  function SetTechnologies(p: Project, technologies: Option<string>): (r: Project)
    ensures r.technologies == technologies && r.(technologies := p.technologies) == p
  {
    p.(technologies := technologies)
  }

  function SetMadeBy(p: Project, madeBy: Option<string>): (r: Project)
    ensures r.madeBy == madeBy && r.(madeBy := p.madeBy) == p
  {
    p.(madeBy := madeBy)
  }

  function SetCreatedAt(p: Project, createdAt: Timestamp): (r: Project)
    ensures r.createdAt == createdAt && r.(createdAt := p.createdAt) == p
  {
    p.(createdAt := createdAt)
  }
}
