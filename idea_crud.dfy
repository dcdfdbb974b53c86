/**
 * backend/crud/ideas.py: create, read, update, like, unlike and delete ideas
 * in the `ideas` collection, given here as a Table the callers pass in.
 */
module IdeaCrud {
  import opened Outcomes
  import opened ObjectIds
  import opened Tables
  import opened IdeaModels

  /** `{"$set": data}` with `data` the supplied fields of an IdeaUpdate. */
  function ApplySet(d: IdeaDoc, u: IdeaUpdate): (r: IdeaDoc)
  {
    IdeaDoc(
      u.title.GetOr(d.title),
      u.userId.GetOr(d.userId),
      u.description.GetOr(d.description),
      if u.longDescription.Some? then u.longDescription else d.longDescription,
      u.links.GetOr(d.links),
      u.wantedContributors.GetOr(d.wantedContributors),
      if u.images.Some? then u.images else d.images,
      u.likedByUser.GetOr(d.likedByUser))
  }

  /** `$set` writes every supplied field, keeps every other one, and setting twice is setting once. */
  lemma ApplySetSetsSuppliedFields(d: IdeaDoc, u: IdeaUpdate)
    ensures u.title.Some? ==> ApplySet(d, u).title == u.title.value
    ensures u.title.None? ==> ApplySet(d, u).title == d.title
    ensures u.description.Some? ==> ApplySet(d, u).description == u.description.value
    ensures u.description.None? ==> ApplySet(d, u).description == d.description
    ensures u.userId.Some? ==> ApplySet(d, u).userId == u.userId.value
    ensures u.userId.None? ==> ApplySet(d, u).userId == d.userId
    ensures u.longDescription.Some? ==> ApplySet(d, u).longDescription == u.longDescription
    ensures u.longDescription.None? ==> ApplySet(d, u).longDescription == d.longDescription
    ensures u.links.Some? ==> ApplySet(d, u).links == u.links.value
    ensures u.links.None? ==> ApplySet(d, u).links == d.links
    ensures u.wantedContributors.Some? ==> ApplySet(d, u).wantedContributors == u.wantedContributors.value
    ensures u.wantedContributors.None? ==> ApplySet(d, u).wantedContributors == d.wantedContributors
    ensures u.likedByUser.Some? ==> ApplySet(d, u).likedByUser == u.likedByUser.value
    ensures u.likedByUser.None? ==> ApplySet(d, u).likedByUser == d.likedByUser
    ensures u.images.Some? ==> ApplySet(d, u).images == u.images
    ensures u.images.None? ==> ApplySet(d, u).images == d.images
    ensures NothingSupplied(u) ==> ApplySet(d, u) == d
    ensures ApplySet(ApplySet(d, u), u) == ApplySet(d, u)
  {
  }

  /**
   * A validated update can make a stored idea that validates fail validation
   * only through the title or the description it supplies: exactly when a
   * supplied title is empty or longer than 200 characters, or a supplied
   * description is empty.
   */
  lemma UpdateInvalidatesOnlyThroughTitleOrDescription(id: ObjectId, d: IdeaDoc, u: IdeaUpdate)
    requires ValidateIdea(id, d).Some? && ValidIdeaUpdate(u)
    ensures ValidateIdea(id, ApplySet(d, u)).None? <==>
              || (u.title.Some? && !(1 <= |u.title.value| <= MaxTitleLength))
              || (u.description.Some? && u.description.value == "")
  {
  }

  /**
   * The filter `find(query)` applies, `query` being the supplied fields of an
   * IdeaFilter: every supplied field must equal the stored one. The `_id` of an
   * IdeaFilter is dumped as a string while stored ids are ObjectIds, and BSON
   * never finds a string equal to an ObjectId, so a filter with an id matches
   * nothing.
   */
  predicate Matches(f: IdeaFilter, d: IdeaDoc)
  {
    var u := f.fields;
    && f.id.None?
    && (u.title.Some? ==> d.title == u.title.value)
    && (u.userId.Some? ==> d.userId == u.userId.value)
    && (u.description.Some? ==> d.description == u.description.value)
    && (u.longDescription.Some? ==> d.longDescription == u.longDescription)
    && (u.links.Some? ==> d.links == u.links.value)
    && (u.wantedContributors.Some? ==> d.wantedContributors == u.wantedContributors.value)
    && (u.images.Some? ==> d.images == u.images)
    && (u.likedByUser.Some? ==> d.likedByUser == u.likedByUser.value)
  }

  function Query(f: IdeaFilter): IdeaDoc -> bool
  {
    d => Matches(f, d)
  }

  function Everything(): IdeaDoc -> bool
  {
    d => true
  }

  /** `filters.model_dump(exclude_none=True)` is empty. */
  predicate IsEmptyFilter(f: IdeaFilter)
  {
    f.id.None? && NothingSupplied(f.fields)
  }

  /** `find_one({"_id": id})` then `Idea.model_validate`: None when absent, an error when the document fails validation. */
  function ReadIdea(ideas: Table<IdeaDoc>, id: ObjectId): (r: Result<Option<Idea>>)
    reads ideas
    ensures r == Ok(None) <==> id !in ideas.docs
    ensures r.Ok? && r.value.Some? ==> id in ideas.docs && ValidateIdea(id, ideas.docs[id]) == r.value
    ensures r.Err? ==> r.error == ValidationError && id in ideas.docs && ValidateIdea(id, ideas.docs[id]).None?
  {
    match ideas.Get(id)
    case None => Ok(None)
    case Some(d) =>
      match ValidateIdea(id, d)
      case None => Err(ValidationError)
      case Some(i) => Ok(Some(i))
  }

  /** create_idea: store the dumped IdeaCreate under a new id and return it read back as an Idea. */
  method CreateIdea(ideas: Table<IdeaDoc>, idea: IdeaCreate, newId: ObjectId) returns (created: Idea)
    requires ideas.Valid() && ValidIdeaCreate(idea) && newId !in ideas.docs
    modifies ideas
    ensures ideas.Valid()
    ensures ideas.docs == old(ideas.docs)[newId := DumpCreate(idea)]
    ensures ideas.order == old(ideas.order) + [newId]
    ensures ReadIdea(ideas, newId) == Ok(Some(created))
    ensures created == Idea(Some(ToString(newId)), idea.title, idea.userId, idea.description,
                            idea.longDescription, idea.links, idea.wantedContributors, [], idea.likedByUser)
  {
    var doc := DumpCreate(idea);
    ideas.InsertOne(newId, doc);
    var stored := ideas.Get(newId);
    CreatedIdeaValidates(idea, newId);
    created := ValidateIdea(newId, stored.value).value;
  }

  /** get_idea: None for a malformed or unknown id, otherwise the stored idea validated. */
  function GetIdea(ideas: Table<IdeaDoc>, ideaId: string): (r: Result<Option<Idea>>)
    reads ideas
    ensures !IsValid(ideaId) ==> r == Ok(None)
    ensures IsValid(ideaId) ==> r == ReadIdea(ideas, Parse(ideaId).value)
  {
    match Parse(ideaId)
    case None => Ok(None)
    case Some(id) => ReadIdea(ideas, id)
  }

  /**
   * get_ideas: None for an empty filter; otherwise every document the filter
   * matches, in natural order, each validated as an Idea. One document that
   * fails validation makes the whole call raise.
   */
  method GetIdeas(ideas: Table<IdeaDoc>, filters: IdeaFilter) returns (r: Result<Option<seq<Idea>>>)
    requires ideas.Valid() && ValidIdeaUpdate(filters.fields)
    ensures IsEmptyFilter(filters) ==> r == Ok(None)
    ensures !IsEmptyFilter(filters) ==>
              var cursor := ideas.Find(Query(filters));
              && (r.Err? <==> exists i :: 0 <= i < |cursor| && ValidateIdea(cursor[i].id, cursor[i].doc).None?)
              && (r.Err? ==> r.error == ValidationError)
              && (r.Ok? ==> r.value.Some? && |r.value.value| == |cursor|
                            && forall i :: 0 <= i < |cursor| ==>
                                 ValidateIdea(cursor[i].id, cursor[i].doc) == Some(r.value.value[i]))
  {
    if IsEmptyFilter(filters) {
      return Ok(None);
    }
    var cursor := ideas.Find(Query(filters));
    var result: seq<Idea> := [];
    var i := 0;
    while i < |cursor|
      invariant 0 <= i <= |cursor| && |result| == i
      invariant forall j :: 0 <= j < i ==> ValidateIdea(cursor[j].id, cursor[j].doc) == Some(result[j])
    {
      var validated := ValidateIdea(cursor[i].id, cursor[i].doc);
      if validated.None? {
        return Err(ValidationError);
      }
      result := result + [validated.value];
      i := i + 1;
    }
    r := Ok(Some(result));
  }

  /** get_all_ideas: every stored idea, in natural order, in its IdeaGet view. */
  method GetAllIdeas(ideas: Table<IdeaDoc>) returns (r: seq<IdeaGet>)
    requires ideas.Valid()
    ensures var cursor := ideas.Find(Everything());
            && |r| == |cursor|
            && forall i :: 0 <= i < |cursor| ==> r[i] == ValidateIdeaGet(cursor[i].id, cursor[i].doc)
    ensures forall id :: id in ideas.docs ==> ValidateIdeaGet(id, ideas.docs[id]) in r
  {
    var cursor := ideas.Find(Everything());
    r := [];
    var i := 0;
    while i < |cursor|
      invariant 0 <= i <= |cursor| && |r| == i
      invariant forall j :: 0 <= j < i ==> r[j] == ValidateIdeaGet(cursor[j].id, cursor[j].doc)
    {
      r := r + [ValidateIdeaGet(cursor[i].id, cursor[i].doc)];
      i := i + 1;
    }
    EveryIdeaIsListed(ideas, r);
  }

  /** A list that reads every row of the full cursor in order holds the IdeaGet view of every stored idea. */
  lemma EveryIdeaIsListed(ideas: Table<IdeaDoc>, r: seq<IdeaGet>)
    requires ideas.Valid()
    requires var cursor := ideas.Find(Everything());
             |r| == |cursor| && forall i :: 0 <= i < |cursor| ==> r[i] == ValidateIdeaGet(cursor[i].id, cursor[i].doc)
    ensures forall id :: id in ideas.docs ==> ValidateIdeaGet(id, ideas.docs[id]) in r
  {
    var cursor := ideas.Find(Everything());
    forall id | id in ideas.docs
      ensures ValidateIdeaGet(id, ideas.docs[id]) in r
    {
      assert Everything()(ideas.docs[id]);
      var k :| 0 <= k < |cursor| && cursor[k] == Row(id, ideas.docs[id]);
      assert r[k] == ValidateIdeaGet(id, ideas.docs[id]);
    }
  }

  /**
   * update_idea: None for a malformed id, an update that supplies nothing, or
   * an unknown id; otherwise `$set` on exactly the supplied fields, then the
   * updated idea read back. The `_id` and the order never change.
   */
  method UpdateIdea(ideas: Table<IdeaDoc>, ideaId: string, idea: IdeaUpdate) returns (r: Result<Option<Idea>>)
    requires ideas.Valid() && ValidIdeaUpdate(idea)
    modifies ideas
    ensures ideas.Valid() && ideas.order == old(ideas.order)
    ensures !IsValid(ideaId) || NothingSupplied(idea) ==> r == Ok(None) && ideas.docs == old(ideas.docs)
    ensures IsValid(ideaId) && !NothingSupplied(idea) ==>
              var id := Parse(ideaId).value;
              if id in old(ideas.docs) then
                ideas.docs == old(ideas.docs)[id := ApplySet(old(ideas.docs)[id], idea)]
                && r == ReadIdea(ideas, id)
              else ideas.docs == old(ideas.docs) && r == Ok(None)
  {
    var parsed := Parse(ideaId);
    if parsed.None? {
      return Ok(None);
    }
    if NothingSupplied(idea) {
      return Ok(None);
    }
    var id := parsed.value;
    var matched, modified := ideas.UpdateOne(id, d => ApplySet(d, idea));
    if matched == 0 {
      return Ok(None);
    }
    r := ReadIdea(ideas, id);
  }

  /**
   * like_idea: None for a malformed or unknown id; otherwise `$addToSet` puts
   * `userId` in likedByUser unless it is there already.
   */
  method LikeIdea(ideas: Table<IdeaDoc>, ideaId: string, userId: string) returns (r: Result<Option<Idea>>)
    requires ideas.Valid()
    modifies ideas
    ensures ideas.Valid() && ideas.order == old(ideas.order)
    ensures !IsValid(ideaId) ==> r == Ok(None) && ideas.docs == old(ideas.docs)
    ensures IsValid(ideaId) ==>
              var id := Parse(ideaId).value;
              if id in old(ideas.docs) then
                var before := old(ideas.docs)[id];
                ideas.docs == old(ideas.docs)[id := before.(likedByUser := AddToSet(before.likedByUser, userId))]
                && r == ReadIdea(ideas, id)
              else ideas.docs == old(ideas.docs) && r == Ok(None)
  {
    var parsed := Parse(ideaId);
    if parsed.None? {
      return Ok(None);
    }
    var id := parsed.value;
    var matched, modified := ideas.UpdateOne(id, (d: IdeaDoc) => d.(likedByUser := AddToSet(d.likedByUser, userId)));
    if matched == 0 {
      return Ok(None);
    }
    r := ReadIdea(ideas, id);
  }

  /**
   * unlike_idea: None for a malformed or unknown id; otherwise `$pull` removes
   * every occurrence of `userId` from likedByUser.
   */
  method UnlikeIdea(ideas: Table<IdeaDoc>, ideaId: string, userId: string) returns (r: Result<Option<Idea>>)
    requires ideas.Valid()
    modifies ideas
    ensures ideas.Valid() && ideas.order == old(ideas.order)
    ensures !IsValid(ideaId) ==> r == Ok(None) && ideas.docs == old(ideas.docs)
    ensures IsValid(ideaId) ==>
              var id := Parse(ideaId).value;
              if id in old(ideas.docs) then
                var before := old(ideas.docs)[id];
                ideas.docs == old(ideas.docs)[id := before.(likedByUser := Pull(before.likedByUser, userId))]
                && r == ReadIdea(ideas, id)
              else ideas.docs == old(ideas.docs) && r == Ok(None)
  {
    var parsed := Parse(ideaId);
    if parsed.None? {
      return Ok(None);
    }
    var id := parsed.value;
    var matched, modified := ideas.UpdateOne(id, (d: IdeaDoc) => d.(likedByUser := Pull(d.likedByUser, userId)));
    if matched == 0 {
      return Ok(None);
    }
    r := ReadIdea(ideas, id);
  }

  /** delete_idea: False for a malformed id; otherwise True exactly when the idea existed, which is then gone. */
  method DeleteIdea(ideas: Table<IdeaDoc>, ideaId: string) returns (deleted: bool)
    requires ideas.Valid()
    modifies ideas
    ensures ideas.Valid()
    ensures !IsValid(ideaId) ==> !deleted && ideas.docs == old(ideas.docs) && ideas.order == old(ideas.order)
    ensures IsValid(ideaId) ==>
              var id := Parse(ideaId).value;
              && deleted == (id in old(ideas.docs))
              && ideas.docs == old(ideas.docs) - {id}
              && ideas.order == (if deleted then Without(old(ideas.order), id) else old(ideas.order))
              && GetIdea(ideas, ideaId) == Ok(None)
  {
    var parsed := Parse(ideaId);
    if parsed.None? {
      return false;
    }
    var count := ideas.DeleteOne(parsed.value, d => true);
    deleted := count == 1;
  }
}
