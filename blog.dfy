/** The blog: posts with a private flag. Anonymous readers see the public
    posts, signed-in readers all of them, newest first; any signed-in user
    may write a post and may edit any post. */
module Blog {
  import opened Tables
  import opened Sorting

  /** A row of the `post` table; `createdAt` is the creation time as a number. */
  datatype Post = Post(id: nat, title: string, content: string, isPrivate: bool, createdAt: int, authorId: nat)

  // ---------------------------------------------------------------------
  // The index page

  /** `filter_by(is_private=False)`. */
  function PublicPosts(posts: seq<Post>): (r: seq<Post>)
    ensures forall x :: multiset(r)[x] == if x.isPrivate then 0 else multiset(posts)[x]
  {
    if posts == [] then []
    else
      assert posts == [posts[0]] + posts[1..];
      (if posts[0].isPrivate then [] else [posts[0]]) + PublicPosts(posts[1..])
  }

  /** `order_by(Post.created_at.desc())`: the sort key puts later posts first. */
  function NewestFirst(p: Post): Key {
    (-p.createdAt, 0, 0)
  }

  /** The posts `index` shows to a reader: every post to a signed-in reader,
      the public ones to others, each as often as stored, newest first. */
  function Index(posts: seq<Post>, authenticated: bool): (r: seq<Post>)
    ensures forall x :: multiset(r)[x] == if authenticated || !x.isPrivate then multiset(posts)[x] else 0
    ensures forall i, j :: 0 <= i < j < |r| ==> r[i].createdAt >= r[j].createdAt
  {
    var shown := if authenticated then posts else PublicPosts(posts);
    var r := SortBy(shown, NewestFirst);
    assert forall i, j :: 0 <= i < j < |r| ==> KeyLe(NewestFirst(r[i]), NewestFirst(r[j]));
    r
  }

  /** A signed-in reader sees every post, each as often as it is stored. */
  lemma AuthenticatedSeesAll(posts: seq<Post>)
    ensures multiset(Index(posts, true)) == multiset(posts)
    ensures forall x :: x in Index(posts, true) <==> x in posts
  {
    forall x ensures x in Index(posts, true) <==> x in posts {
      SortedMembers(posts, NewestFirst, x);
    }
  }

  /** An anonymous reader sees exactly the posts that are not private. */
  lemma AnonymousSeesPublic(posts: seq<Post>)
    ensures forall x :: x in Index(posts, false) <==> x in posts && !x.isPrivate
  {
    forall x ensures x in Index(posts, false) <==> x in posts && !x.isPrivate {
      SortedMembers(PublicPosts(posts), NewestFirst, x);
      assert x in PublicPosts(posts) <==> x in multiset(PublicPosts(posts));
      assert x in posts <==> x in multiset(posts);
    }
  }

  // ---------------------------------------------------------------------
  // Writing and editing

  /** `bool(request.form.get("is_private"))`: the field is sent and not empty. */
  function Checked(field: Option<string>): (r: bool)
    ensures r ==> field.Some?
    ensures field.Some? && field.value != "" ==> r
    ensures field == Some("") ==> !r
  {
    field.Some? && field.value != ""
  }

  /** A checkbox without a `value` attribute is sent as `on` when ticked and
      left out of the form otherwise. */
  lemma CheckboxAsSent()
    ensures Checked(Some("on"))
    ensures !Checked(None)
  {
  }

  datatype PostOutcome = LoginRequired | NotFound | BadRequest | Saved

  /** The answer of `create_post` to a POST: `login_required`, then the
      `title` and `content` fields, whose absence is a bad request. */
  function CreateDecision(current: Option<nat>, title: Option<string>, content: Option<string>): (r: PostOutcome)
    ensures r == Saved <==> current.Some? && title.Some? && content.Some?
    ensures r == LoginRequired <==> current.None?
    ensures r != NotFound
  {
    if current.None? then LoginRequired
    else if title.None? || content.None? then BadRequest
    else Saved
  }

  /** The answer of `edit_post` to a POST: `login_required`, then
      `get_or_404`, then the form fields. Who wrote the post plays no part. */
  function EditDecision(current: Option<nat>, posts: seq<Post>, id: nat,
                        title: Option<string>, content: Option<string>): (r: PostOutcome)
    ensures r == Saved <==>
      && current.Some? && title.Some? && content.Some?
      && exists k :: 0 <= k < |posts| && posts[k].id == id
    ensures r == LoginRequired <==> current.None?
    ensures r == NotFound <==> current.Some? && forall k :: 0 <= k < |posts| ==> posts[k].id != id
  {
    if current.None? then LoginRequired
    else if IndexOf(posts, (p: Post) => p.id == id).None? then NotFound
    else if title.None? || content.None? then BadRequest
    else Saved
  }

  /** Editing is open to every signed-in user: the answer is the same whoever asks. */
  lemma NoOwnershipCheck(posts: seq<Post>, id: nat, title: Option<string>, content: Option<string>, u1: nat, u2: nat)
    ensures EditDecision(Some(u1), posts, id, title, content) == EditDecision(Some(u2), posts, id, title, content)
  {
  }

  /** The table after `edit_post` rewrote the post with this id. */
  function Edited(posts: seq<Post>, id: nat, title: string, content: string, isPrivate: bool): (r: seq<Post>)
    ensures |r| == |posts|
    ensures forall k :: 0 <= k < |r| ==>
      && r[k].id == posts[k].id && r[k].authorId == posts[k].authorId && r[k].createdAt == posts[k].createdAt
    ensures forall k :: 0 <= k < |r| && posts[k].id != id ==> r[k] == posts[k]
    ensures forall k :: 0 <= k < |r| && posts[k].id == id && (forall m :: 0 <= m < k ==> posts[m].id != id) ==>
      r[k].title == title && r[k].content == content && r[k].isPrivate == isPrivate
  {
    match IndexOf(posts, (p: Post) => p.id == id)
    case None => posts
    case Some(k) => posts[k := posts[k].(title := title, content := content, isPrivate := isPrivate)]
  }

  /** Once a post is edited to private, an anonymous reader no longer sees it. */
  lemma {:induction false} EditToPrivateHides(posts: seq<Post>, k: nat, title: string, content: string)
    requires k < |posts| && forall m :: 0 <= m < |posts| && m != k ==> posts[m].id != posts[k].id
    ensures var r := Edited(posts, posts[k].id, title, content, true);
      r[k] !in Index(r, false) && r[k].isPrivate
  {
    var r := Edited(posts, posts[k].id, title, content, true);
    AnonymousSeesPublic(r);
  }

  predicate IdsBelow(posts: seq<Post>, nextId: nat) {
    forall k :: 0 <= k < |posts| ==> posts[k].id < nextId
  }

  predicate IdsDistinct(posts: seq<Post>) {
    forall i, j :: 0 <= i < j < |posts| ==> posts[i].id != posts[j].id
  }

  /** The largest id in the table, or 0 when it is empty. */
  function MaxId(posts: seq<Post>): (r: nat)
    ensures forall k :: 0 <= k < |posts| ==> posts[k].id <= r
    ensures posts == [] ==> r == 0
    ensures posts != [] ==> exists k :: 0 <= k < |posts| && posts[k].id == r
  {
    if posts == [] then 0
    else
      var m := MaxId(posts[1..]);
      assert forall k :: 1 <= k < |posts| ==> posts[k] == posts[1..][k - 1];
      if posts[0].id > m then posts[0].id else m
  }

  /** A post appended with an id above all others becomes the largest. */
  lemma MaxIdAppend(posts: seq<Post>, x: Post)
    requires IdsBelow(posts, x.id)
    ensures MaxId(posts + [x]) == x.id
  {
    var ps := posts + [x];
    assert ps[|posts|] == x;
    var k :| 0 <= k < |ps| && ps[k].id == MaxId(ps);
    if k < |posts| {
      assert ps[k] == posts[k];
    }
  }

  /** The largest id depends on the ids alone. */
  lemma MaxIdSameIds(a: seq<Post>, b: seq<Post>)
    requires |a| == |b| && forall k :: 0 <= k < |a| ==> a[k].id == b[k].id
    ensures MaxId(a) == MaxId(b)
  {
    if a != [] {
      var i :| 0 <= i < |a| && a[i].id == MaxId(a);
      var j :| 0 <= j < |b| && b[j].id == MaxId(b);
      assert MaxId(a) >= a[j].id && MaxId(b) >= b[i].id;
    }
  }

  class Blog {
    /** The `post` table, in insertion order. */
    var posts: seq<Post>
    /** The id the next inserted post receives. */
    var nextId: nat

    ghost predicate Valid()
      reads this
    {
      IdsBelow(posts, nextId) && IdsDistinct(posts) && nextId == MaxId(posts) + 1
    }

    /** SQLite gives an inserted row one more than the largest id in the table. */
    constructor (loaded: seq<Post>)
      requires IdsDistinct(loaded)
      ensures Valid() && posts == loaded && nextId == MaxId(loaded) + 1
    {
      posts, nextId := loaded, MaxId(loaded) + 1;
    }

    /** The POST branch of `create_post`; `current` is the signed-in user's id,
        `now` the clock that supplies `created_at`. */
    method CreatePost(current: Option<nat>, title: Option<string>, content: Option<string>,
                      privateField: Option<string>, now: int) returns (outcome: PostOutcome)
      requires Valid()
      modifies this
      ensures Valid()
      ensures outcome == CreateDecision(current, title, content)
      ensures outcome == Saved ==>
        && posts == old(posts) + [Post(old(nextId), title.value, content.value, Checked(privateField), now, current.value)]
        && nextId == old(nextId) + 1
      ensures outcome == Saved ==> posts[|posts| - 1].id == MaxId(old(posts)) + 1
      ensures outcome != Saved ==> posts == old(posts) && nextId == old(nextId)
    {
      if current.None? {
        return LoginRequired;
      }
      if title.None? || content.None? {
        return BadRequest;
      }
      var post := Post(nextId, title.value, content.value, Checked(privateField), now, current.value);
      MaxIdAppend(posts, post);
      posts := posts + [post];
      nextId := nextId + 1;
      outcome := Saved;
    }

    /** The POST branch of `edit_post`. */
    method EditPost(current: Option<nat>, id: nat, title: Option<string>, content: Option<string>,
                    privateField: Option<string>) returns (outcome: PostOutcome)
      requires Valid()
      modifies this
      ensures Valid()
      ensures outcome == EditDecision(current, old(posts), id, title, content)
      ensures outcome == Saved ==> posts == Edited(old(posts), id, title.value, content.value, Checked(privateField))
      ensures outcome != Saved ==> posts == old(posts)
      ensures nextId == old(nextId)
    {
      if current.None? {
        return LoginRequired;
      }
      var found := IndexOf(posts, (p: Post) => p.id == id);
      if found.None? {
        return NotFound;
      }
      if title.None? || content.None? {
        return BadRequest;
      }
      var k := found.value;
      posts := posts[k := posts[k].(title := title.value, content := content.value,
                                    isPrivate := Checked(privateField))];
      MaxIdSameIds(old(posts), posts);
      outcome := Saved;
    }
  }
}
