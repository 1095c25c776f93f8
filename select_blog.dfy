/**
 * The blog browser of `/select blog`: a select menu of authors, then a menu
 * of the chosen author's posts, then the chosen post. The author and post
 * services are remote: their answers come in as parameters.
 */
module SelectBlog {
  import opened Wrappers
  import opened Ascii
  import opened InteractionErrors

  datatype Author = Author(id: int, name: string, username: string, email: string)

  datatype Post = Post(id: int, userId: int, title: string, body: string)

  /** An entry of a string select menu. */
  datatype MenuOption = MenuOption(caption: string, value: string, description: string)

  /** The platform's bound on an option label. */
  const MaxLabel := 100

  /** The label of a post's option: the title, cut to 97 characters plus "..." when longer than 100. */
  function PostLabel(title: string): (r: string)
    ensures |r| <= MaxLabel
    ensures |title| <= MaxLabel ==> r == title
    ensures |title| > MaxLabel ==> |r| == MaxLabel && r == title[..97] + "..."
  {
    if |title| > 100 then title[..97] + "..." else title
  }

  /** A label is already short enough, so labelling it again changes nothing. */
  lemma PostLabelIdempotent(title: string)
    ensures PostLabel(PostLabel(title)) == PostLabel(title)
  {
  }

  /** A label never disagrees with its title on the characters it keeps from it. */
  lemma PostLabelKeepsPrefix(title: string)
    ensures var r := PostLabel(title);
      if |title| <= MaxLabel then r == title else r[..97] == title[..97] && r[97..] == "..."
  {
  }

  /** The options of the author menu: one per author, in order. */
  function AuthorOptions(authors: seq<Author>): (r: seq<MenuOption>)
    ensures |r| == |authors|
    ensures forall i :: 0 <= i < |authors| ==>
      r[i] == MenuOption(authors[i].name, IntToString(authors[i].id),
                         "@" + authors[i].username + " (" + authors[i].email + ")")
  {
    seq(|authors|, i requires 0 <= i < |authors| =>
      MenuOption(authors[i].name, IntToString(authors[i].id), "@" + authors[i].username + " (" + authors[i].email + ")"))
  }

  /** The options of the post menu: one per post, in order, each with a bounded label. */
  function PostOptions(author: Author, posts: seq<Post>): (r: seq<MenuOption>)
    ensures |r| == |posts|
    ensures forall i :: 0 <= i < |posts| ==>
      |r[i].caption| <= MaxLabel && r[i].caption == PostLabel(posts[i].title)
      && r[i].value == IntToString(posts[i].id)
      && r[i].description == "By " + author.name + " (" + author.username + ")"
  {
    seq(|posts|, i requires 0 <= i < |posts| =>
      MenuOption(PostLabel(posts[i].title), IntToString(posts[i].id), "By " + author.name + " (" + author.username + ")"))
  }

  /** Posts with different ids get options with different values, as a select menu needs. */
  lemma PostOptionValuesDistinct(author: Author, posts: seq<Post>, i: int, j: int)
    requires 0 <= i < |posts| && 0 <= j < |posts| && posts[i].id != posts[j].id
    ensures PostOptions(author, posts)[i].value != PostOptions(author, posts)[j].value
  {
    if IntToString(posts[i].id) == IntToString(posts[j].id) {
      IntToStringInjective(posts[i].id, posts[j].id);
    }
  }

  /** Authors with different ids get options with different values. */
  lemma AuthorOptionValuesDistinct(authors: seq<Author>, i: int, j: int)
    requires 0 <= i < |authors| && 0 <= j < |authors| && authors[i].id != authors[j].id
    ensures AuthorOptions(authors)[i].value != AuthorOptions(authors)[j].value
  {
    if IntToString(authors[i].id) == IntToString(authors[j].id) {
      IntToStringInjective(authors[i].id, authors[j].id);
    }
  }

  const AuthorNotFound := "Author not found"
  const PostNotFound := "Post not found"
  const NoPosts := "This author has no posts"

  /** The reply to a chosen author: an embed titled with the author and the menu of their posts. */
  datatype AuthorView = AuthorView(title: string, placeholder: string, options: seq<MenuOption>)

  /**
   * `handleSelectedAuthor`, given the author the service found for the chosen id
   * and the service's post lookup by author id.
   */
  function SelectedAuthor(author: Option<Author>, postsOf: int -> Option<seq<Post>>): (r: Result<AuthorView, InteractionError>)
    ensures author.None? ==> r == Err(NewInteractionError(AuthorNotFound, None))
    ensures author.Some? && (postsOf(author.value.id).None? || postsOf(author.value.id).value == [])
      ==> r == Err(NewInteractionError(NoPosts, None))
    ensures r.Ok? <==> author.Some? && postsOf(author.value.id).Some? && postsOf(author.value.id).value != []
    ensures r.Ok? ==> |r.value.options| == |postsOf(author.value.id).value| > 0
    ensures r.Ok? ==> r.value.options == PostOptions(author.value, postsOf(author.value.id).value)
    ensures r.Ok? ==> r.value.title == author.value.name
    ensures r.Ok? ==> r.value.placeholder == "Select a post by " + author.value.name
  {
    match author
    case None => Err(NewInteractionError(AuthorNotFound, None))
    case Some(a) =>
      match postsOf(a.id)
      case None => Err(NewInteractionError(NoPosts, None))
      case Some(posts) =>
        if |posts| == 0 then Err(NewInteractionError(NoPosts, None))
        else Ok(AuthorView(a.name, "Select a post by " + a.name, PostOptions(a, posts)))
  }

  /** The reply to a chosen post: an embed with the post and its author. */
  datatype PostView = PostView(title: string, description: string, footer: string)

  /** `handleSelectedPost`, given the post the service found and the service's author lookup by id. */
  function SelectedPost(post: Option<Post>, authorOf: int -> Option<Author>): (r: Result<PostView, InteractionError>)
    ensures post.None? ==> r == Err(NewInteractionError(PostNotFound, None))
    ensures post.Some? && authorOf(post.value.userId).None? ==> r == Err(NewInteractionError(AuthorNotFound, None))
    ensures r.Ok? <==> post.Some? && authorOf(post.value.userId).Some?
    ensures r.Ok? ==> r.value.title == post.value.title
    ensures r.Ok? ==> var a := authorOf(post.value.userId).value;
      r.value.description == "By " + a.name + " (" + a.username + ")\n\n" + post.value.body
    ensures r.Ok? ==>
      r.value.footer == "Post ID: " + IntToString(post.value.id) + " | Author ID: " + IntToString(post.value.userId)
  {
    match post
    case None => Err(NewInteractionError(PostNotFound, None))
    case Some(p) =>
      match authorOf(p.userId)
      case None => Err(NewInteractionError(AuthorNotFound, None))
      case Some(a) =>
        Ok(PostView(p.title, "By " + a.name + " (" + a.username + ")\n\n" + p.body,
                    "Post ID: " + IntToString(p.id) + " | Author ID: " + IntToString(p.userId)))
  }
}
