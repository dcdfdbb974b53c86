/**
 * The pydantic models for ideas (backend/models/idea.py): their field
 * constraints as predicates, the stored form `model_dump` writes, and the
 * views `model_validate` reads back.
 */
module IdeaModels {
  import opened Outcomes
  import opened ObjectIds

  const MaxTitleLength: nat := 200

  datatype Link = Link(url: string, text: string)

  /** Link: `url` and `text` are required and non-empty. */
  predicate ValidLink(l: Link)
  {
    |l.url| >= 1 && |l.text| >= 1
  }

  predicate ValidLinks(links: seq<Link>)
  {
    forall i :: 0 <= i < |links| ==> ValidLink(links[i])
  }

  /** What Idea and IdeaCreate both demand: a title of 1 to 200 characters, a non-empty description, valid links. */
  predicate ValidContent(title: string, description: string, links: seq<Link>)
  {
    1 <= |title| <= MaxTitleLength && |description| >= 1 && ValidLinks(links)
  }

  /** Idea: the full view of a stored idea; `id` is str(_id) and `images` defaults to []. */
  datatype Idea = Idea(
    id: Option<string>,
    title: string,
    userId: string,
    description: string,
    longDescription: Option<string>,
    links: seq<Link>,
    wantedContributors: string,
    images: seq<string>,
    likedByUser: seq<string>)

  predicate ValidIdea(i: Idea)
  {
    ValidContent(i.title, i.description, i.links)
  }

  /** IdeaCreate: the request body of a new idea; it has no id and no images. */
  datatype IdeaCreate = IdeaCreate(
    title: string,
    userId: string,
    description: string,
    longDescription: Option<string>,
    links: seq<Link>,
    wantedContributors: string,
    likedByUser: seq<string>)

  predicate ValidIdeaCreate(c: IdeaCreate)
  {
    ValidContent(c.title, c.description, c.links)
  }

  /** An IdeaCreate given only its required fields: long_description is None and likedByUser is []. */
  function NewIdeaCreate(title: string, userId: string, description: string, links: seq<Link>,
                         wantedContributors: string): (c: IdeaCreate)
    ensures c.longDescription.None? && c.likedByUser == []
    ensures (c.title, c.userId, c.description, c.links, c.wantedContributors)
            == (title, userId, description, links, wantedContributors)
  {
    IdeaCreate(title, userId, description, None, links, wantedContributors, [])
  }

  /** IdeaGet: the compact view, without long_description, links, wanted_contributors or images. */
  datatype IdeaGet = IdeaGet(
    id: Option<string>,
    title: string,
    userId: string,
    description: string,
    likedByUser: seq<string>)

  /**
   * IdeaUpdate: every field optional, None meaning "not supplied". The length
   * bounds of Idea's title and description are not repeated here; supplied
   * links are still validated as Link objects.
   */
  datatype IdeaUpdate = IdeaUpdate(
    title: Option<string>,
    userId: Option<string>,
    description: Option<string>,
    longDescription: Option<string>,
    links: Option<seq<Link>>,
    wantedContributors: Option<string>,
    images: Option<seq<string>>,
    likedByUser: Option<seq<string>>)

  /** What pydantic enforces on an IdeaUpdate body: every supplied link has a non-empty url and text. */
  predicate ValidIdeaUpdate(u: IdeaUpdate)
  {
    u.links.Some? ==> ValidLinks(u.links.value)
  }

  /** `model_dump(exclude_none=True)` of an update is empty. */
  predicate NothingSupplied(u: IdeaUpdate)
  {
    u.title.None? && u.userId.None? && u.description.None? && u.longDescription.None?
    && u.links.None? && u.wantedContributors.None? && u.images.None? && u.likedByUser.None?
  }

  /** IdeaFilter: the fields of IdeaUpdate, validated as such, plus an optional `_id` given as a string. */
  datatype IdeaFilter = IdeaFilter(id: Option<string>, fields: IdeaUpdate)

  /**
   * An idea as the `ideas` collection stores it: `model_dump(by_alias=True,
   * exclude_none=True)` of an IdeaCreate, later changed by `$set`,
   * `$addToSet` and `$pull`. A field that is None is absent from the document.
   */
  datatype IdeaDoc = IdeaDoc(
    title: string,
    userId: string,
    description: string,
    longDescription: Option<string>,
    links: seq<Link>,
    wantedContributors: string,
    images: Option<seq<string>>,
    likedByUser: seq<string>)

  /** `idea.model_dump(by_alias=True, exclude_none=True)` for an IdeaCreate: no `_id` and no `images`. */
  function DumpCreate(c: IdeaCreate): IdeaDoc
  {
    IdeaDoc(c.title, c.userId, c.description, c.longDescription, c.links, c.wantedContributors, None, c.likedByUser)
  }

  /** `Idea.model_validate(doc)`: None where pydantic raises a ValidationError. */
  function ValidateIdea(id: ObjectId, d: IdeaDoc): (r: Option<Idea>)
    ensures r.Some? <==> ValidContent(d.title, d.description, d.links)
    ensures r.Some? ==> ValidIdea(r.value) && r.value.id == Some(ToString(id))
    ensures r.Some? ==> && r.value.title == d.title && r.value.userId == d.userId
                        && r.value.description == d.description && r.value.longDescription == d.longDescription
                        && r.value.links == d.links && r.value.wantedContributors == d.wantedContributors
                        && r.value.images == d.images.GetOr([]) && r.value.likedByUser == d.likedByUser
  {
    if ValidContent(d.title, d.description, d.links) then
      Some(Idea(Some(ToString(id)), d.title, d.userId, d.description, d.longDescription, d.links,
                d.wantedContributors, d.images.GetOr([]), d.likedByUser))
    else None
  }

  /** `IdeaGet.model_validate(doc)`: IdeaGet has no constraints, so it never raises. */
  function ValidateIdeaGet(id: ObjectId, d: IdeaDoc): IdeaGet
  {
    IdeaGet(Some(ToString(id)), d.title, d.userId, d.description, d.likedByUser)
  }

  /** The IdeaGet of an Idea: the same five fields. */
  function ToIdeaGet(i: Idea): IdeaGet
  {
    IdeaGet(i.id, i.title, i.userId, i.description, i.likedByUser)
  }

  /**
   * A valid IdeaCreate, once dumped and stored under any id, reads back as
   * a valid Idea with the same fields, `images` defaulting to [].
   */
  lemma CreatedIdeaValidates(c: IdeaCreate, id: ObjectId)
    requires ValidIdeaCreate(c)
    ensures ValidateIdea(id, DumpCreate(c))
            == Some(Idea(Some(ToString(id)), c.title, c.userId, c.description, c.longDescription,
                         c.links, c.wantedContributors, [], c.likedByUser))
  {
  }

  /** Validating as IdeaGet keeps exactly the five fields of the compact view of the full Idea. */
  lemma IdeaGetIsProjection(id: ObjectId, d: IdeaDoc)
    requires ValidateIdea(id, d).Some?
    ensures ValidateIdeaGet(id, d) == ToIdeaGet(ValidateIdea(id, d).value)
  {
  }

  /**
   * IdeaUpdate does not repeat the title bound: a supplied empty title turns
   * a stored document that validates as Idea into one that does not.
   */
  lemma EmptyTitleInvalidates(id: ObjectId, d: IdeaDoc)
    requires ValidateIdea(id, d).Some?
    ensures ValidateIdea(id, d.(title := "")).None?
  {
  }
}
