/** The course forum of backend/models/Forum.js: a forum document holds posts, a post holds
    comments, and posts and comments keep a list of the users who like them. The posts and
    comments are sub-documents changed in place, so they are objects here. */
module ForumModel {
  import opened Prelude
  import opened Primitives

  // ---------------------------------------------------------------------------
  // toggleLike on a likes list

  /** The likes list after `toggleLike(userId)`: the user is appended when absent (ids
      compared as strings, i.e. by value), otherwise the first occurrence is spliced out. */
  function Toggled(likes: seq<Id>, userId: Id): seq<Id>
  {
    match IndexOf(likes, userId)
    case None => likes + [userId]
    case Some(i) => likes[..i] + likes[i + 1..]
  }

  /** Splicing out one element removes exactly that element from the multiset. */
  lemma SpliceMultiset(s: seq<Id>, i: nat)
    requires i < |s|
    ensures multiset(s[..i] + s[i + 1..]) == multiset(s) - multiset{s[i]}
  {
    assert s == s[..i] + [s[i]] + s[i + 1..];
  }

  /** The user is added once when absent and removed once when present; every other user's
      likes are untouched. */
  lemma ToggledMultiset(likes: seq<Id>, userId: Id)
    ensures multiset(Toggled(likes, userId))
            == if userId in likes then multiset(likes) - multiset{userId} else multiset(likes) + multiset{userId}
  {
    match IndexOf(likes, userId)
    case None =>
    case Some(i) => SpliceMultiset(likes, i);
  }

  /** On a duplicate-free list the user's membership flips. */
  lemma ToggledFlipsMembership(likes: seq<Id>, userId: Id)
    requires Distinct(likes)
    ensures userId in Toggled(likes, userId) <==> userId !in likes
  {
    match IndexOf(likes, userId)
    case None =>
      assert Toggled(likes, userId)[|likes|] == userId;
    case Some(i) =>
      var r := likes[..i] + likes[i + 1..];
      forall k | 0 <= k < |r| ensures r[k] != userId {
        if k < i {
          assert r[k] == likes[..i][k];
        } else {
          assert r[k] == likes[k + 1] && likes[i] == userId;
        }
      }
  }

  /** No duplicate likes before means none after. */
  lemma ToggledKeepsDistinct(likes: seq<Id>, userId: Id)
    requires Distinct(likes)
    ensures Distinct(Toggled(likes, userId))
  {
    match IndexOf(likes, userId)
    case None =>
    case Some(i) =>
      var r := likes[..i] + likes[i + 1..];
      forall a, b | 0 <= a < b < |r| ensures r[a] != r[b] {
        var a' := if a < i then a else a + 1;
        var b' := if b < i then b else b + 1;
        assert r[a] == likes[a'] && r[b] == likes[b'] && a' < b';
      }
  }

  /** Liking and unliking: on a list without the user, toggling twice restores the list.
      With the user present the first toggle removes it and the second appends it, so on a
      duplicate-free list the user moves to the end and the likes are the same as a
      multiset. */
  lemma ToggledTwice(likes: seq<Id>, userId: Id)
    ensures userId !in likes ==> Toggled(Toggled(likes, userId), userId) == likes
    ensures Distinct(likes) ==> multiset(Toggled(Toggled(likes, userId), userId)) == multiset(likes)
  {
    var once := Toggled(likes, userId);
    if userId !in likes {
      assert once == likes + [userId];
      assert IndexOf(once, userId) == Some(|likes|) by {
        assert once[|likes|] == userId && once[..|likes|] == likes;
      }
    } else if Distinct(likes) {
      ToggledMultiset(likes, userId);
      ToggledFlipsMembership(likes, userId);
      ToggledMultiset(once, userId);
    }
  }

  // ---------------------------------------------------------------------------
  // Validation of the new sub-documents (title, content and comment content are trimmed)

  function PostErrors(title: string, content: string): (r: seq<string>)
    ensures r == [] <==> title != "" && content != ""
  {
    Check(title == "", "Post title is required") + Check(content == "", "Post content is required")
  }

  function CommentErrors(content: string): (r: seq<string>)
    ensures r == [] <==> content != ""
  {
    Check(content == "", "Comment content is required")
  }

  // ---------------------------------------------------------------------------
  // Objects

  class Comment {
    const content: string
    const authorId: Id
    var likes: seq<Id>

    constructor (content: string, authorId: Id)
      ensures this.content == Trim(content) && this.authorId == authorId && likes == []
    {
      this.content := Trim(content);
      this.authorId := authorId;
      likes := [];
    }

    /** comment.toggleLike(userId): like or unlike, in place. */
    method ToggleLike(userId: Id)
      modifies this`likes
      ensures likes == Toggled(old(likes), userId)
      ensures Distinct(old(likes)) ==> Distinct(likes) && (userId in likes <==> userId !in old(likes))
    {
      var index := IndexOf(likes, userId);
      if index.None? {
        likes := likes + [userId];
      } else {
        likes := likes[..index.value] + likes[index.value + 1..];
      }
      if Distinct(old(likes)) {
        ToggledKeepsDistinct(old(likes), userId);
        ToggledFlipsMembership(old(likes), userId);
      }
    }
  }

  class Post {
    const id: Id
    const title: string
    const content: string
    const authorId: Id
    const imageUrl: Option<string>
    var likes: seq<Id>
    var comments: seq<Comment>

    /** The pushed post: trimmed title and content; an image URL only when it is truthy. */
    constructor (id: Id, authorId: Id, title: string, content: string, imageUrl: Option<string>)
      ensures this.id == id && this.authorId == authorId
      ensures this.title == Trim(title) && this.content == Trim(content)
      ensures this.imageUrl == (if Falsy(imageUrl) then None else Some(Trim(imageUrl.value)))
      ensures likes == [] && comments == []
    {
      this.id := id;
      this.authorId := authorId;
      this.title := Trim(title);
      this.content := Trim(content);
      this.imageUrl := if Falsy(imageUrl) then None else Some(Trim(imageUrl.value));
      likes := [];
      comments := [];
    }

    /** post.toggleLike(userId): like or unlike, in place. */
    method ToggleLike(userId: Id)
      modifies this`likes
      ensures likes == Toggled(old(likes), userId)
      ensures Distinct(old(likes)) ==> Distinct(likes) && (userId in likes <==> userId !in old(likes))
    {
      var index := IndexOf(likes, userId);
      if index.None? {
        likes := likes + [userId];
      } else {
        likes := likes[..index.value] + likes[index.value + 1..];
      }
      if Distinct(old(likes)) {
        ToggledKeepsDistinct(old(likes), userId);
        ToggledFlipsMembership(old(likes), userId);
      }
    }
  }

  /** posts.id(postId): the first post with that id. */
  function FindPost(posts: seq<Post>, postId: Id): (r: Option<nat>)
    ensures r.Some? ==> r.value < |posts| && posts[r.value].id == postId
    ensures r.None? <==> forall k :: 0 <= k < |posts| ==> posts[k].id != postId
  {
    FirstIndex(posts, (q: Post) => q.id == postId)
  }

  class Forum {
    const courseId: Id
    var posts: seq<Post>

    /** Post ids are unique, so different positions hold different post objects. */
    ghost predicate Valid()
      reads this
    {
      forall i, j :: 0 <= i < j < |posts| ==> posts[i].id != posts[j].id
    }

    constructor (courseId: Id)
      ensures this.courseId == courseId && posts == [] && Valid()
    {
      this.courseId := courseId;
      posts := [];
    }

    /** createPost: one new post is appended, the earlier posts stay as they were, and the
        save reports the new post's missing title or content. */
    method CreatePost(id: Id, authorId: Id, title: string, content: string, imageUrl: Option<string>)
      returns (post: Post, errors: seq<string>)
      modifies this`posts
      ensures fresh(post) && posts == old(posts) + [post]
      ensures post.id == id && post.authorId == authorId && post.title == Trim(title) && post.content == Trim(content)
      ensures post.imageUrl == (if Falsy(imageUrl) then None else Some(Trim(imageUrl.value)))
      ensures post.likes == [] && post.comments == []
      ensures errors == PostErrors(Trim(title), Trim(content))
      ensures old(Valid()) && FindPost(old(posts), id).None? ==> Valid()
    {
      post := new Post(id, authorId, title, content, imageUrl);
      posts := posts + [post];
      errors := PostErrors(post.title, post.content);
    }

    /** addComment: an unknown post id is refused and nothing changes; otherwise a comment is
        appended to the first post with that id and to no other post object, and the save
        reports an empty comment. */
    method AddComment(postId: Id, authorId: Id, content: string)
      returns (out: Outcome<seq<string>>, added: Option<Comment>)
      modifies posts
      ensures posts == old(posts)
      ensures forall j :: 0 <= j < |posts| ==> posts[j].likes == old(posts[j].likes)
      ensures FindPost(posts, postId).None? ==>
                out == Fail(["Post not found-comment"]) && added.None?
                && forall j :: 0 <= j < |posts| ==> posts[j].comments == old(posts[j].comments)
      ensures FindPost(posts, postId).Some? ==>
                var k := FindPost(posts, postId).value;
                && added.Some? && fresh(added.value)
                && added.value.content == Trim(content) && added.value.authorId == authorId && added.value.likes == []
                && posts[k].comments == old(posts[k].comments) + [added.value]
                && (forall j :: 0 <= j < |posts| && posts[j] != posts[k] ==> posts[j].comments == old(posts[j].comments))
                && out == (if CommentErrors(Trim(content)) == [] then Pass else Fail(CommentErrors(Trim(content))))
    {
      var k := FindPost(posts, postId);
      if k.None? {
        return Fail(["Post not found-comment"]), None;
      }
      var post := posts[k.value];
      var comment := new Comment(content, authorId);
      post.comments := post.comments + [comment];
      var errors := CommentErrors(comment.content);
      out := if errors == [] then Pass else Fail(errors);
      added := Some(comment);
    }
  }

  /** In a valid forum, posts at different positions are different objects, so a comment
      added to one post is added to that post only. */
  lemma ValidPostsAreDistinct(f: Forum)
    requires f.Valid()
    ensures forall i, j :: 0 <= i < |f.posts| && 0 <= j < |f.posts| && i != j ==> f.posts[i] != f.posts[j]
  {
    forall i, j | 0 <= i < |f.posts| && 0 <= j < |f.posts| && i != j
      ensures f.posts[i] != f.posts[j]
    {
      if i < j { assert f.posts[i].id != f.posts[j].id; } else { assert f.posts[j].id != f.posts[i].id; }
    }
  }
}
