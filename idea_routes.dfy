/**
 * The idea handlers: list, get, create, update and delete over the idea
 * collection, the tag normalisation shared by create and update, and the
 * `protect` gate in front of the three handlers that change data.
 */
module IdeaRoutes {
  import opened Wrappers
  import opened Text
  import opened Records
  import opened Tokens
  import opened Http
  import AuthMiddleware

  // ---------------------------------------------------------------- tags

  /** The `tags` field of a request body: a string, an array of strings, or anything else. */
  datatype TagsInput = TagText(text: string) | TagList(items: seq<string>) | OtherTags

  /** A stored tag is nonempty and has no whitespace at either end. */
  predicate IsTag(t: string)
  {
    t != "" && IsTrimmed(t)
  }

  /** `items.map(t => t.trim()).filter(Boolean)`. */
  function CleanTags(items: seq<string>): (tags: seq<string>)
    ensures |tags| <= |items|
    ensures forall k :: 0 <= k < |tags| ==> IsTag(tags[k])
    decreases |items|
  {
    if items == [] then []
    else
      var rest := CleanTags(items[1..]);
      var head := Trim(items[0]);
      if head == "" then rest else [head] + rest
  }

  /** The tag rule of create and update: split a string on ",", clean an array, drop anything else. */
  function NormalizeTags(t: TagsInput): (tags: seq<string>)
    ensures forall k :: 0 <= k < |tags| ==> IsTag(tags[k])
    ensures t.OtherTags? ==> tags == []
    ensures t.TagText? ==> forall k :: 0 <= k < |tags| ==> ',' !in tags[k]
  {
    match t
    case TagText(s) =>
      var pieces := Split(s, ',');
      var tags := CleanTags(pieces);
      CleanTagsAvoid(pieces, ',');
      tags
    case TagList(items) => CleanTags(items)
    case OtherTags => []
  }

  /** A character no item holds is held by no tag. */
  lemma {:induction false} CleanTagsAvoid(items: seq<string>, c: char)
    requires forall k :: 0 <= k < |items| ==> c !in items[k]
    ensures forall k :: 0 <= k < |CleanTags(items)| ==> c !in CleanTags(items)[k]
    decreases |items|
  {
    if items != [] {
      CleanTagsAvoid(items[1..], c);
      TrimIsInfix(items[0]);
      InfixKeepsAbsence(items[0], Trim(items[0]), c);
    }
  }

  /** Cleaning distributes over concatenation: each item is kept or dropped on its own, in order. */
  lemma {:induction false} CleanTagsAppend(a: seq<string>, b: seq<string>)
    ensures CleanTags(a + b) == CleanTags(a) + CleanTags(b)
    decreases |a|
  {
    if a != [] {
      assert (a + b)[1..] == a[1..] + b;
      CleanTagsAppend(a[1..], b);
    } else {
      assert a + b == b;
    }
  }

  /** One item: it survives, trimmed, exactly when it is not blank. */
  lemma CleanTagsSingle(x: string)
    ensures CleanTags([x]) == if Trim(x) == "" then [] else [Trim(x)]
  {
    assert [x][1..] == [];
  }

  /** Every item that is not blank appears, trimmed, among the tags. */
  lemma {:induction false} CleanTagsKeeps(items: seq<string>, j: nat)
    requires j < |items| && Trim(items[j]) != ""
    ensures Trim(items[j]) in CleanTags(items)
    decreases j
  {
    var rest := CleanTags(items[1..]);
    if j > 0 {
      CleanTagsKeeps(items[1..], j - 1);
      assert items[1..][j - 1] == items[j];
      assert Trim(items[j]) in rest;
      assert CleanTags(items) == rest || CleanTags(items) == [Trim(items[0])] + rest;
    }
  }

  /** A list that already consists of tags is left exactly as it is. */
  lemma {:induction false} CleanTagsOfTags(tags: seq<string>)
    requires forall k :: 0 <= k < |tags| ==> IsTag(tags[k])
    ensures CleanTags(tags) == tags
    decreases |tags|
  {
    if tags != [] {
      TrimOfTrimmed(tags[0]);
      CleanTagsOfTags(tags[1..]);
    }
  }

  /** Normalising normalised tags (sent back as an array) changes nothing. */
  lemma NormalizeTagsIdempotent(t: TagsInput)
    ensures NormalizeTags(TagList(NormalizeTags(t))) == NormalizeTags(t)
  {
    CleanTagsOfTags(NormalizeTags(t));
  }

  /** Tags joined with "," and sent back as a string come back as the same list. */
  lemma NormalizeJoinedTags(tags: seq<string>)
    requires forall k :: 0 <= k < |tags| ==> IsTag(tags[k]) && ',' !in tags[k]
    ensures NormalizeTags(TagText(Join(tags, ','))) == tags
  {
    if tags == [] {
      assert Split("", ',') == [""];
      assert CleanTags([""]) == [] by { CleanTagsSingle(""); }
    } else {
      SplitJoin(tags, ',');
      CleanTagsOfTags(tags);
    }
  }

  // ---------------------------------------------------------------- ordering

  /** Newest first: `createdAt` never increases along the list. */
  predicate NewestFirstOrder(s: seq<Idea>)
  {
    forall i, j :: 0 <= i < j < |s| ==> s[i].createdAt >= s[j].createdAt
  }

  function Insert(x: Idea, s: seq<Idea>): (r: seq<Idea>)
    requires NewestFirstOrder(s)
    ensures NewestFirstOrder(r)
    ensures multiset(r) == multiset(s) + multiset{x}
    ensures |r| == |s| + 1
    ensures r[0] == x || (s != [] && r[0] == s[0])
    decreases |s|
  {
    if s == [] || x.createdAt >= s[0].createdAt then [x] + s
    else
      var tail := Insert(x, s[1..]);
      assert s == [s[0]] + s[1..];
      ConsKeepsOrder(s[0], tail);
      [s[0]] + tail
  }

  lemma ConsKeepsOrder(x: Idea, s: seq<Idea>)
    requires NewestFirstOrder(s)
    requires s != [] ==> x.createdAt >= s[0].createdAt
    ensures NewestFirstOrder([x] + s)
  {
    var r := [x] + s;
    forall i, j | 0 <= i < j < |r|
      ensures r[i].createdAt >= r[j].createdAt
    {
      if i == 0 && j > 1 {
        assert r[1] == s[0] && r[j] == s[j - 1];
      }
    }
  }

  /** In a newest-first list, whatever a prefix leaves out is no newer than anything it keeps. */
  lemma PrefixHoldsNewest(sorted: seq<Idea>, n: nat, x: Idea, y: Idea)
    requires NewestFirstOrder(sorted) && n <= |sorted|
    requires x in sorted[..n] && y in sorted && y !in sorted[..n]
    ensures y.createdAt <= x.createdAt
  {
    var j :| 0 <= j < |sorted| && sorted[j] == y;
    var i :| 0 <= i < n && sorted[..n][i] == x;
  }

  /** `Idea.find().sort({ createdAt: -1 })`: all ideas, newest first (ties in one fixed order). */
  function NewestFirst(s: seq<Idea>): (r: seq<Idea>)
    ensures NewestFirstOrder(r)
    ensures multiset(r) == multiset(s)
    ensures |r| == |s|
    decreases |s|
  {
    if s == [] then []
    else
      assert s == [s[0]] + s[1..];
      Insert(s[0], NewestFirst(s[1..]))
  }

  // ---------------------------------------------------------------- lookup

  /** `Idea.findById(id)`: the position of the idea with that id. */
  function Find(ideas: seq<Idea>, id: Id): (r: Option<nat>)
    ensures r.Some? ==> r.value < |ideas| && ideas[r.value].id == id
    ensures r.None? ==> forall k :: 0 <= k < |ideas| ==> ideas[k].id != id
    decreases |ideas|
  {
    if ideas == [] then None
    else if ideas[0].id == id then Some(0)
    else
      match Find(ideas[1..], id)
      case None => None
      case Some(i) => Some(i + 1)
  }

  /** Ideas can only be added, changed or removed if they belong to `owner`. */
  ghost predicate OnlyOwnIdeasTouched(before: seq<Idea>, after: seq<Idea>, owner: Id)
  {
    && (forall x :: x in after && x !in before ==> x.user == owner)
    && (forall x :: x in before && x !in after ==> x.user == owner)
  }

  /** No two ideas share an id. */
  predicate DistinctIds(s: seq<Idea>)
  {
    forall i, j :: 0 <= i < j < |s| ==> s[i].id != s[j].id
  }

  /** Overwriting one's own idea in place, keeping its id and owner, keeps ids distinct and touches only one's own ideas. */
  lemma ReplaceOwn(before: seq<Idea>, k: nat, updated: Idea, owner: Id)
    requires DistinctIds(before) && k < |before|
    requires before[k].user == owner && updated.user == owner && updated.id == before[k].id
    ensures DistinctIds(before[k := updated])
    ensures OnlyOwnIdeasTouched(before, before[k := updated], owner)
  {
    var after := before[k := updated];
    forall i, j | 0 <= i < j < |after|
      ensures after[i].id != after[j].id
    {
      assert after[i].id == before[i].id && after[j].id == before[j].id;
    }
    forall j | 0 <= j < |before| && j != k
      ensures before[j] in after
    {
      assert after[j] == before[j];
    }
    forall x | x in before && x !in after
      ensures x.user == owner
    {
      var j :| 0 <= j < |before| && before[j] == x;
    }
    forall x | x in after && x !in before
      ensures x.user == owner
    {
      var j :| 0 <= j < |after| && after[j] == x;
    }
  }

  /** Appending a new idea of one's own with a fresh id keeps ids distinct and touches only one's own ideas. */
  lemma AppendOwn(before: seq<Idea>, idea: Idea)
    requires DistinctIds(before)
    requires forall k :: 0 <= k < |before| ==> before[k].id != idea.id
    ensures DistinctIds(before + [idea])
    ensures OnlyOwnIdeasTouched(before, before + [idea], idea.user)
  {
    var after := before + [idea];
    forall x | x in after && x !in before
      ensures x.user == idea.user
    {
      assert x == idea;
    }
  }

  /** Removing one's own idea keeps ids distinct, touches only one's own ideas and drops exactly that id. */
  lemma RemoveOwn(before: seq<Idea>, k: nat, owner: Id)
    requires DistinctIds(before) && k < |before| && before[k].user == owner
    ensures var after := before[..k] + before[k + 1..];
      && DistinctIds(after)
      && OnlyOwnIdeasTouched(before, after, owner)
      && (forall x :: x in after <==> x in before && x.id != before[k].id)
  {
    var after := before[..k] + before[k + 1..];
    forall i, j | 0 <= i < j < |after|
      ensures after[i].id != after[j].id
    {
      var i' := if i < k then i else i + 1;
      var j' := if j < k then j else j + 1;
      assert after[i] == before[i'] && after[j] == before[j'];
    }
    forall x
      ensures x in after <==> x in before && x.id != before[k].id
    {
      if x in before && x.id != before[k].id {
        var j :| 0 <= j < |before| && before[j] == x;
        if j < k { assert after[j] == x; } else { assert after[j - 1] == x; }
      }
      if x in after {
        var j :| 0 <= j < |after| && after[j] == x;
        var j' := if j < k then j else j + 1;
        assert before[j'] == x;
      }
    }
  }

  /** The requests that pass through `protect`. */
  datatype IdeaWrite =
    | CreateIdea(title: Option<string>, summary: Option<string>, description: Option<string>, tags: TagsInput, newId: Id)
    | UpdateIdea(id: Id, newTitle: string, newSummary: string, newDescription: string, tags: TagsInput)
    | DeleteIdea(id: Id)

  /** The idea collection, in its natural (insertion) order. */
  class IdeaTable {
    var ideas: seq<Idea>
    /** `mongoose.Types.ObjectId.isValid`. */
    const isValidId: Id -> bool

    /** Ids are unique. */
    ghost predicate Valid()
      reads this
    {
      DistinctIds(ideas)
    }

    constructor (isValidId: Id -> bool)
      ensures Valid() && ideas == [] && this.isValidId == isValidId
    {
      this.isValidId := isValidId;
      ideas := [];
    }

    /** `Idea.findById(id)` finds a document. */
    function HasId(id: Id): (b: bool)
      reads this
      ensures b <==> Find(ideas, id).Some?
    {
      exists k :: 0 <= k < |ideas| && ideas[k].id == id
    }

    /**
     * `GET /`: newest first; cut to `limit` only when the parsed `_limit` is a number above 0.
     * `None` stands for a `_limit` that `parseInt` turns into NaN.
     */
    method List(limit: Option<int>) returns (r: Response)
      ensures r.status == 200 && r.message.None? && r.cookie.None? && r.payload.IdeaList?
      ensures NewestFirstOrder(r.payload.ideas)
      ensures |r.payload.ideas| == if limit.Some? && 0 < limit.value < |ideas| then limit.value else |ideas|
      ensures multiset(r.payload.ideas) <= multiset(ideas)
      ensures limit.None? || limit.value <= 0 ==> multiset(r.payload.ideas) == multiset(ideas)
      ensures forall x, y :: x in r.payload.ideas && y in ideas && y !in r.payload.ideas ==> y.createdAt <= x.createdAt
    {
      var sorted := NewestFirst(ideas);
      var n := |sorted|;
      if limit.Some? && limit.value > 0 && limit.value < n {
        n := limit.value;
      }
      var shown := sorted[..n];
      assert sorted == shown + sorted[n..];
      assert multiset(sorted) == multiset(shown) + multiset(sorted[n..]);
      forall x, y | x in shown && y in ideas && y !in shown
        ensures y.createdAt <= x.createdAt
      {
        assert y in multiset(sorted);
        PrefixHoldsNewest(sorted, n, x, y);
      }
      r := Response(200, None, None, IdeaList(shown));
    }

    /** `GET /:id`: 400 for a malformed id, 404 for an absent one, else the stored idea. */
    method Get(id: Id) returns (r: Response)
      ensures !isValidId(id) ==> r == Reply(400, InvalidIdeaId)
      ensures isValidId(id) && !HasId(id) ==> r == Reply(404, IdeaNotFound)
      ensures r.status == 200 <==> isValidId(id) && HasId(id)
      ensures r.status == 200 ==>
        r.message.None? && r.cookie.None? && r.payload.OneIdea? && r.payload.idea in ideas && r.payload.idea.id == id
    {
      if !isValidId(id) {
        return Reply(400, InvalidIdeaId);
      }
      var found := Find(ideas, id);
      if found.None? {
        return Reply(404, IdeaNotFound);
      }
      r := Response(200, None, None, OneIdea(ideas[found.value]));
    }

    /**
     * `POST /` behind `protect`, for the authenticated user `me`. `newId` is the fresh, well-formed id
     * the store assigns and `now` the creation time.
     */
    method Create(me: UserView, title: Option<string>, summary: Option<string>, description: Option<string>,
                  tags: TagsInput, newId: Id, now: int) returns (r: Response)
      requires Valid() && isValidId(newId) && !HasId(newId)
      modifies this`ideas
      ensures Valid()
      ensures OnlyOwnIdeasTouched(old(ideas), ideas, me.id)
      ensures Blank(title) || Blank(summary) || Blank(description) ==>
        r == Reply(400, TitleSummaryDescriptionRequired) && ideas == old(ideas)
      ensures !Blank(title) && !Blank(summary) && !Blank(description) ==>
        var idea := Idea(newId, title.value, summary.value, description.value, NormalizeTags(tags), me.id, now);
        ideas == old(ideas) + [idea] && r == Response(201, Some(IdeaCreated), None, OneIdea(idea))
    {
      if Blank(title) || Blank(summary) || Blank(description) {
        return Reply(400, TitleSummaryDescriptionRequired);
      }
      var idea := Idea(newId, title.value, summary.value, description.value, NormalizeTags(tags), me.id, now);
      AppendOwn(ideas, idea);
      ideas := ideas + [idea];
      r := Response(201, Some(IdeaCreated), None, OneIdea(idea));
    }

    /** `DELETE /:id` behind `protect`: 404 for a malformed or absent id, 403 for someone else's idea. */
    method Delete(me: UserView, id: Id) returns (r: Response)
      requires Valid()
      modifies this`ideas
      ensures Valid()
      ensures OnlyOwnIdeasTouched(old(ideas), ideas, me.id)
      ensures !isValidId(id) ==> r == Reply(404, InvalidIdeaId) && ideas == old(ideas)
      ensures isValidId(id) && !old(HasId(id)) ==> r == Reply(404, IdeaNotFound) && ideas == old(ideas)
      ensures isValidId(id) ==> forall k :: 0 <= k < |old(ideas)| && old(ideas)[k].id == id ==>
        if old(ideas)[k].user != me.id then r == Reply(403, NotAuthorizedToDelete) && ideas == old(ideas)
        else
          && r == Reply(200, IdeaDeleted)
          && ideas == old(ideas)[..k] + old(ideas)[k + 1..]
          && (forall x :: x in ideas <==> x in old(ideas) && x.id != id)
    {
      if !isValidId(id) {
        return Reply(404, InvalidIdeaId);
      }
      var found := Find(ideas, id);
      if found.None? {
        return Reply(404, IdeaNotFound);
      }
      var k := found.value;
      if ideas[k].user != me.id {
        return Reply(403, NotAuthorizedToDelete);
      }
      assert forall j :: 0 <= j < |ideas| && ideas[j].id == id ==> j == k;
      RemoveOwn(ideas, k, me.id);
      ideas := ideas[..k] + ideas[k + 1..];
      r := Reply(200, IdeaDeleted);
    }

    /**
     * `PUT /:id` behind `protect`: 404 for a malformed or absent id, 403 for someone else's idea;
     * otherwise title, summary, description and tags are overwritten (no blank check), and the id,
     * owner and creation time stay.
     */
    method Update(me: UserView, id: Id, title: string, summary: string, description: string, tags: TagsInput)
      returns (r: Response)
      requires Valid()
      modifies this`ideas
      ensures Valid()
      ensures OnlyOwnIdeasTouched(old(ideas), ideas, me.id)
      ensures !isValidId(id) ==> r == Reply(404, InvalidIdeaId) && ideas == old(ideas)
      ensures isValidId(id) && !old(HasId(id)) ==> r == Reply(404, IdeaNotFound) && ideas == old(ideas)
      ensures isValidId(id) ==> forall k :: 0 <= k < |old(ideas)| && old(ideas)[k].id == id ==>
        if old(ideas)[k].user != me.id then r == Reply(403, NotAuthorizedToUpdate) && ideas == old(ideas)
        else
          var updated := Idea(id, title, summary, description, NormalizeTags(tags), old(ideas)[k].user, old(ideas)[k].createdAt);
          ideas == old(ideas)[k := updated] && r == Response(200, Some(IdeaUpdated), None, OneIdea(updated))
    {
      if !isValidId(id) {
        return Reply(404, InvalidIdeaId);
      }
      var found := Find(ideas, id);
      if found.None? {
        return Reply(404, IdeaNotFound);
      }
      var k := found.value;
      if ideas[k].user != me.id {
        return Reply(403, NotAuthorizedToUpdate);
      }
      assert forall j :: 0 <= j < |ideas| && ideas[j].id == id ==> j == k;
      var updated := ideas[k].(title := title, summary := summary, description := description, tags := NormalizeTags(tags));
      ReplaceOwn(ideas, k, updated, me.id);
      ideas := ideas[k := updated];
      r := Response(200, Some(IdeaUpdated), None, OneIdea(updated));
    }

    /**
     * Create, update and delete as routed: `protect` runs first, and a rejected request is answered
     * 401 without touching the collection. A request that passes can only add, change or remove ideas
     * of the user it authenticated as.
     */
    method Guarded(header: Option<string>, users: map<Id, User>, k: Codec, now: int, req: IdeaWrite)
      returns (r: Response)
      requires Valid()
      requires req.CreateIdea? ==> isValidId(req.newId) && !HasId(req.newId)
      modifies this`ideas
      ensures Valid()
      ensures var d := AuthMiddleware.Protect(header, users, k, isValidId, now);
        && (d.Reject? ==> ideas == old(ideas) && r == AuthMiddleware.Rejection(d))
        && (d.Pass? ==> OnlyOwnIdeasTouched(old(ideas), ideas, d.user.id))
    {
      var d := AuthMiddleware.Protect(header, users, k, isValidId, now);
      if d.Reject? {
        return AuthMiddleware.Rejection(d);
      }
      match req
      case CreateIdea(title, summary, description, tags, newId) =>
        r := Create(d.user, title, summary, description, tags, newId, now);
      case UpdateIdea(id, title, summary, description, tags) =>
        r := Update(d.user, id, title, summary, description, tags);
      case DeleteIdea(id) =>
        r := Delete(d.user, id);
    }
  }
}
