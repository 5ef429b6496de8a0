/** The blog post editor form: its fields, the slug derived from the
    title, the selected-tag list and the submit validation. Server calls
    are replaced by the outcome the form hands to them. */
module BlogPostForm {
  import opened Wrappers
  import opened Slug

  datatype Status = Draft | Published

  datatype Tag = Tag(id: int, name: string, slug: string)

  /** The post being edited, when the form edits one. */
  datatype Post = Post(
    id: int,
    title: string,
    slug: string,
    content: string,
    excerpt: Option<string>,
    status: Status,
    tags: Option<seq<Tag>>)

  datatype FormData = FormData(title: string, slug: string, content: string, excerpt: string, status: Status)

  /** The form's state: its fields, the post it edits (if any), the
      selected tags and the text of the new-tag input. */
  datatype Editor = Editor(data: FormData, post: Option<Post>, selected: seq<Tag>, tagInput: string)

  /** The form as first shown: the post's fields, or empty fields and a
      draft status for a new post. */
  function Open(post: Option<Post>): (e: Editor)
    ensures e.post == post && e.tagInput == ""
    ensures post.None? ==> e.data == FormData("", "", "", "", Draft) && e.selected == []
    ensures post.Some? ==>
      && e.data.title == post.value.title && e.data.slug == post.value.slug
      && e.data.content == post.value.content && e.data.status == post.value.status
    ensures post.Some? ==> e.data.excerpt == (if post.value.excerpt.Some? then post.value.excerpt.value else "")
    ensures post.Some? && post.value.tags.Some? ==> e.selected == post.value.tags.value
  {
    match post
    case None => Editor(FormData("", "", "", "", Draft), None, [], "")
    case Some(p) =>
      Editor(FormData(p.title, p.slug, p.content, p.excerpt.GetOr(""), p.status), post, p.tags.GetOr([]), "")
  }

  // ---------------------------------------------------------------------
  // Title and slug

  /** Typing a title. For a new post a non-empty title regenerates the
      slug; an edited post keeps its slug, and so does an emptied title. */
  function SetTitle(e: Editor, title: string): (r: Editor)
    ensures r.data.title == title && r.post == e.post && r.selected == e.selected && r.tagInput == e.tagInput
    ensures r.data.content == e.data.content && r.data.excerpt == e.data.excerpt && r.data.status == e.data.status
    ensures e.post.Some? || title == "" ==> r.data.slug == e.data.slug
    ensures e.post.None? && title != "" ==> r.data.slug == MakeSlug(title)
  {
    var data := e.data.(title := title);
    if e.post.None? && title != "" then e.(data := data.(slug := MakeSlug(title)))
    else e.(data := data)
  }

  /** After typing a title into a new post's form the slug is well formed. */
  lemma NewPostSlugWellFormed(e: Editor, title: string)
    requires e.post.None?
    ensures IsSlug(SetTitle(e, title).data.slug) || (title == "" && SetTitle(e, title).data.slug == e.data.slug)
  {
  }

  /** Retyping a new post's title as its own slug leaves the slug as it is. */
  lemma RetypeSlugAsTitle(e: Editor, title: string)
    requires e.post.None? && title != ""
    ensures var e1 := SetTitle(e, title);
      e1.data.slug != "" ==> SetTitle(e1, e1.data.slug).data.slug == e1.data.slug
  {
    SlugIdempotent(title);
  }

  // ---------------------------------------------------------------------
  // Tags

  /** `toLowerCase()` on both sides, compared. */
  predicate SameName(a: string, b: string) {
    Lower(a) == Lower(b)
  }

  /** The index `find` stops at: the first tag whose name matches. */
  function FindTag(all: seq<Tag>, name: string): (r: Option<nat>)
    ensures r.Some? ==> r.value < |all| && SameName(all[r.value].name, name)
    ensures r.Some? ==> forall j | 0 <= j < r.value :: !SameName(all[j].name, name)
    ensures r.None? <==> forall j | 0 <= j < |all| :: !SameName(all[j].name, name)
    decreases |all|
  {
    if |all| == 0 then None
    else if SameName(all[0].name, name) then Some(0)
    else match FindTag(all[1..], name)
      case None => None
      case Some(k) => Some(k + 1)
  }

  predicate HasId(tags: seq<Tag>, id: int) {
    exists t | t in tags :: t.id == id
  }

  predicate UniqueIds(tags: seq<Tag>) {
    forall i, j | 0 <= i < j < |tags| :: tags[i].id != tags[j].id
  }

  /** A name the form refuses: empty once trimmed. */
  predicate Blank(name: string) {
    Trim(name) == []
  }

  /** The slug of a new tag: lower-cased, each run of white space replaced
      by one hyphen, and not trimmed. */
  function TagSlug(name: string): (r: string)
    ensures |r| <= |name|
  {
    CollapseRuns(Lower(name), IsSpace, '-')
  }

  /** A new tag's slug holds no white space and no capital letter. */
  lemma TagSlugShape(name: string)
    ensures forall i | 0 <= i < |TagSlug(name)| :: !IsSpace(TagSlug(name)[i]) && !IsUpper(TagSlug(name)[i])
  {
    CollapseChars(Lower(name), IsSpace, '-', c => !IsUpper(c));
  }

  /** A one-word name's slug is the lower-cased name. */
  lemma TagSlugOfWord(name: string)
    requires forall i | 0 <= i < |name| :: !IsSpace(name[i])
    ensures TagSlug(name) == Lower(name)
  {
    var lowered := Lower(name);
    forall i | 0 <= i < |lowered| ensures !IsSpace(lowered[i]) {
      assert lowered[i] == LowerChar(name[i]);
    }
    CollapseIdentity(lowered, IsSpace, '-');
  }

  /** Unlike a post slug, a tag slug is not trimmed: leading white space
      turns into a leading hyphen. */
  lemma TagSlugKeepsLeadingSpace(name: string)
    requires |name| > 0 && !IsSpace(name[0])
    ensures TagSlug(" " + name) == "-" + TagSlug(name)
  {
    assert Lower(" " + name) == [' '] + Lower(name);
    assert Lower(name)[0] == LowerChar(name[0]);
    CollapseLeadingSpace(Lower(name));
  }

  lemma CollapseLeadingSpace(x: string)
    requires |x| > 0 && !IsSpace(x[0])
    ensures CollapseRuns([' '] + x, IsSpace, '-') == "-" + CollapseRuns(x, IsSpace, '-')
  {
    assert ([' '] + x)[1..] == x;
    assert DropRun([' '] + x, IsSpace) == DropRun(x, IsSpace) == x;
  }

  function NewTag(now: int, name: string): (t: Tag)
    ensures t.id == now && t.name == name
  {
    Tag(now, name, TagSlug(name))
  }

  /** `handleAddTag`, with `now` the clock reading and `all` the known
      tags. A blank input is ignored. A known tag (same name ignoring case)
      is appended unless its id is already selected; an unknown name becomes
      a new tag with the clock reading as its id. The input is then
      cleared. */
  function AddTag(e: Editor, all: seq<Tag>, now: int): (r: Editor)
    ensures Blank(e.tagInput) ==> r == e
    ensures !Blank(e.tagInput) ==> r.tagInput == "" && r.data == e.data && r.post == e.post
    ensures |e.selected| <= |r.selected| <= |e.selected| + 1 && r.selected[..|e.selected|] == e.selected
    ensures !Blank(e.tagInput) && FindTag(all, e.tagInput).None? ==>
      r.selected == e.selected + [NewTag(now, e.tagInput)]
    ensures !Blank(e.tagInput) && FindTag(all, e.tagInput).Some? ==>
      var known := all[FindTag(all, e.tagInput).value];
      (HasId(e.selected, known.id) ==> r.selected == e.selected)
      && (!HasId(e.selected, known.id) ==> r.selected == e.selected + [known])
  {
    if Blank(e.tagInput) then e
    else
      var selected := match FindTag(all, e.tagInput)
        case None => e.selected + [NewTag(now, e.tagInput)]
        case Some(k) => if HasId(e.selected, all[k].id) then e.selected else e.selected + [all[k]];
      e.(selected := selected, tagInput := "")
  }

  /** An input of white space alone changes nothing, not even the input. */
  lemma BlankInputIgnored(e: Editor, all: seq<Tag>, now: int)
    requires forall i | 0 <= i < |e.tagInput| :: IsSpace(e.tagInput[i])
    ensures AddTag(e, all, now) == e
  {
    TrimBlank(e.tagInput);
  }

  /** Adding known tags never selects one id twice. */
  lemma AddKnownKeepsIdsUnique(e: Editor, all: seq<Tag>, now: int)
    requires UniqueIds(e.selected)
    requires FindTag(all, e.tagInput).Some?
    ensures UniqueIds(AddTag(e, all, now).selected)
  {
    var r := AddTag(e, all, now);
    if !Blank(e.tagInput) {
      var known := all[FindTag(all, e.tagInput).value];
      if !HasId(e.selected, known.id) {
        forall i, j | 0 <= i < j < |r.selected| ensures r.selected[i].id != r.selected[j].id {
          if j == |e.selected| {
            assert r.selected[i] in e.selected;
          }
        }
      }
    }
  }

  /** Adding a known tag a second time, under any spelling that matches
      the same catalogue entry, changes nothing more. */
  lemma AddKnownTwice(e: Editor, all: seq<Tag>, now: int, again: string, later: int)
    requires !Blank(e.tagInput) && !Blank(again)
    requires FindTag(all, e.tagInput).Some? && FindTag(all, again) == FindTag(all, e.tagInput)
    ensures var e1 := AddTag(e, all, now);
      AddTag(e1.(tagInput := again), all, later).selected == e1.selected
  {
    var e1 := AddTag(e, all, now);
    var known := all[FindTag(all, e.tagInput).value];
    if !HasId(e.selected, known.id) {
      assert known in e1.selected;
    }
  }

  /** `handleRemoveTag`: the selection without the tags of that id, in
      their order. */
  function RemoveTag(tags: seq<Tag>, id: int): (r: seq<Tag>)
    ensures |r| <= |tags|
    decreases |tags|
  {
    if |tags| == 0 then []
    else (if tags[0].id == id then [] else [tags[0]]) + RemoveTag(tags[1..], id)
  }

  /** Exactly the tags of other ids survive. */
  lemma {:induction false} RemoveMembers(tags: seq<Tag>, id: int)
    ensures forall t :: t in RemoveTag(tags, id) <==> t in tags && t.id != id
    decreases |tags|
  {
    if |tags| > 0 {
      RemoveMembers(tags[1..], id);
      assert tags == [tags[0]] + tags[1..];
    }
  }

  /** Removal works tag by tag, so the survivors keep their order. */
  lemma {:induction false} RemoveConcat(a: seq<Tag>, b: seq<Tag>, id: int)
    ensures RemoveTag(a + b, id) == RemoveTag(a, id) + RemoveTag(b, id)
    decreases |a|
  {
    if |a| > 0 {
      var head := if a[0].id == id then [] else [a[0]];
      assert (a + b)[0] == a[0];
      assert (a + b)[1..] == a[1..] + b;
      assert RemoveTag(a + b, id) == head + RemoveTag(a[1..] + b, id);
      RemoveConcat(a[1..], b, id);
    } else {
      assert a + b == b;
    }
  }

  /** Removing an id nobody has changes nothing. */
  lemma {:induction false} RemoveAbsent(tags: seq<Tag>, id: int)
    requires !HasId(tags, id)
    ensures RemoveTag(tags, id) == tags
    decreases |tags|
  {
    if |tags| > 0 {
      assert tags[0] in tags;
      assert !HasId(tags[1..], id) by {
        forall t | t in tags[1..] ensures t.id != id {
          assert t in tags;
        }
      }
      RemoveAbsent(tags[1..], id);
    }
  }

  /** Removing the tag just created from an unknown name undoes the
      addition. */
  lemma AddThenRemove(e: Editor, all: seq<Tag>, now: int)
    requires !Blank(e.tagInput) && FindTag(all, e.tagInput).None?
    requires !HasId(e.selected, now)
    ensures RemoveTag(AddTag(e, all, now).selected, now) == e.selected
  {
    RemoveConcat(e.selected, [NewTag(now, e.tagInput)], now);
    RemoveAbsent(e.selected, now);
  }

  // ---------------------------------------------------------------------
  // Submit

  /** What submitting hands to the server: nothing (the form alerts), a
      new post, or an update of the edited post. */
  datatype Outcome = Rejected | Create(data: FormData) | Update(id: int, data: FormData)

  predicate Complete(d: FormData) {
    d.title != "" && d.slug != "" && d.content != ""
  }

  function Submit(e: Editor): (o: Outcome)
    ensures o.Rejected? <==> e.data.title == "" || e.data.slug == "" || e.data.content == ""
    ensures o.Create? <==> Complete(e.data) && e.post.None?
    ensures o.Create? ==> o.data == e.data
    ensures o.Update? ==> e.post.Some? && o.id == e.post.value.id && o.data == e.data
  {
    if !Complete(e.data) then Rejected
    else match e.post
      case None => Create(e.data)
      case Some(p) => Update(p.id, e.data)
  }

  /** A new post whose title is all punctuation gets an empty slug, so
      submitting it is refused. */
  lemma PunctuationTitleRejected(e: Editor, title: string)
    requires e.post.None? && title != ""
    requires forall i | 0 <= i < |title| :: !Kept(title[i])
    ensures SetTitle(e, title).data.slug == ""
    ensures Submit(SetTitle(e, title)).Rejected?
  {
    forall i | 0 <= i < |title| ensures !IsUpper(title[i]) && !IsSpace(title[i]) {
    }
    LowerIdentity(title);
    TrimIdentity(title);
    KeepDropsAll(title);
  }
}
