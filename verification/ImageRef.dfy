/** Image references (Retag and TagOf, internal/selfupdate/selfupdate.go). */
module ImageRef {
  import opened Strings

  function WithoutDigest(image: string): string { Before(image, '@') }

  /** Registry and repository: the reference without digest and tag. A colon before the last slash is a
      registry port. */
  function Base(image: string): string
  {
    var base := WithoutDigest(image);
    var colon := LastIndexOf(base, ':');
    if colon > LastIndexOf(base, '/') then base[..colon] else base
  }

  function Retag(image: string, tag: string): string
  {
    if image == "" || tag == "" then "" else Base(image) + ":" + tag
  }

  function TagOf(image: string): string
  {
    var base := WithoutDigest(image);
    var slash, colon := LastIndexOf(base, '/'), LastIndexOf(base, ':');
    if colon <= slash then "" else base[colon + 1..]
  }

  predicate PlainTag(tag: string) { '/' !in tag && ':' !in tag && '@' !in tag }

  lemma LastIndexOfJoin(a: string, b: string, c: char)
    ensures LastIndexOf(a + b, c) == if c in b then |a| + LastIndexOf(b, c) else LastIndexOf(a, c)
  {
    var s := a + b;
    var i := LastIndexOf(s, c);
    if c in b {
      var k := LastIndexOf(b, c);
      assert s[|a| + k] == c;
      assert forall j :: |a| + k < j < |s| ==> s[j] == b[j - |a|];
    } else {
      var k := LastIndexOf(a, c);
      assert forall j :: |a| <= j < |s| ==> s[j] == b[j - |a|] && s[j] in b;
      assert forall j :: 0 <= j < |a| ==> s[j] == a[j];
      assert i < |a|;
    }
  }

  /** How a base with something appended reads back. */
  lemma Reread(b: string, t: string)
    requires '@' !in b
    ensures var x, t' := b + ":" + t, Before(t, '@');
            && WithoutDigest(x) == b + ":" + t'
            && (if '/' !in t' && ':' !in t' then Base(x) == b && TagOf(x) == t'
                else |Base(x)| > |b| && |TagOf(x)| < |t'|)
  {
    var x, t' := b + ":" + t, Before(t, '@');
    BeforeJoin(b + ":", t, '@');
    LastMarks(b, t');
    var y := b + ":" + t';
    assert y[..|b|] == b && y[|b| + 1..] == t';
  }

  /** Where the last colon and slash are, once something is appended after a colon. */
  lemma LastMarks(b: string, t: string)
    ensures var y := b + ":" + t;
            && LastIndexOf(y, ':') == (if ':' in t then |b| + 1 + LastIndexOf(t, ':') else |b|)
            && LastIndexOf(y, '/') == if '/' in t then |b| + 1 + LastIndexOf(t, '/') else LastIndexOf(b, '/')
  {
    var head := b + ":";
    LastIndexOfJoin(head, t, ':');
    LastIndexOfJoin(head, t, '/');
    LastIndexOfJoin(b, ":", '/');
    LastIndexOfJoin(b, ":", ':');
  }

  lemma BeforeJoin(a: string, b: string, c: char)
    requires c !in a
    ensures Before(a + b, c) == a + Before(b, c)
  {
    BeforeFacts(b, c);
    var r := Before(b, c);
    assert |a + r| < |a + b| ==> (a + b)[|a| + |r|] == b[|r|];
    BeforeIs(a + b, c, a + r);
  }

  lemma BaseHasNoDigest(image: string)
    ensures '@' !in Base(image)
  {
    BeforeFacts(image, '@');
    assert Base(image) <= WithoutDigest(image);
  }

  /** The tag read back is the tag put on, exactly for tags without '/', ':' and '@'. */
  lemma TagOfRetag(image: string, tag: string)
    requires image != "" && tag != ""
    ensures TagOf(Retag(image, tag)) == tag <==> PlainTag(tag)
  {
    BaseHasNoDigest(image);
    Reread(Base(image), tag);
  }

  /** Retagging twice is retagging once, exactly when the first tag has no '/' and no ':' before its
      first '@'. */
  lemma RetagTwice(image: string, tag: string, again: string)
    requires image != "" && tag != "" && again != ""
    ensures Retag(Retag(image, tag), again) == Retag(image, again) <==>
              '/' !in Before(tag, '@') && ':' !in Before(tag, '@')
  {
    BaseHasNoDigest(image);
    Reread(Base(image), tag);
  }

  /** Retagging keeps registry (port included) and repository, and drops any digest. */
  lemma RetagKeepsBase(image: string, tag: string)
    requires image != "" && tag != "" && PlainTag(tag)
    ensures Base(Retag(image, tag)) == Base(image) && '@' !in Retag(image, tag)
  {
    BaseHasNoDigest(image);
    Reread(Base(image), tag);
  }

  /** Up to its first at-sign the tag is blank, ends in a colon, or has a slash after its last colon. */
  predicate Unreadable(tag: string)
  {
    var t := Before(tag, '@');
    t == "" || t[|t| - 1] == ':' || LastIndexOf(t, ':') < LastIndexOf(t, '/')
  }

  /** From those tags, and no others, nothing is read back. */
  lemma NothingReadBackIff(image: string, tag: string)
    requires image != "" && tag != ""
    ensures TagOf(Retag(image, tag)) == "" <==> Unreadable(tag)
  {
    BaseHasNoDigest(image);
    var b, t := Base(image), Before(tag, '@');
    BeforeJoin(b + ":", tag, '@');
    assert WithoutDigest(Retag(image, tag)) == b + ":" + t;
    TagIsBlank(Retag(image, tag));
    LastMarks(b, t);
    EndsAtMark(t);
    Marked(b, t);
  }

  lemma TagIsBlank(image: string)
    ensures var base := WithoutDigest(image);
            var colon := LastIndexOf(base, ':');
            TagOf(image) == "" <==> colon <= LastIndexOf(base, '/') || colon == |base| - 1
  {
  }

  lemma EndsAtMark(t: string)
    ensures t != "" && t[|t| - 1] == ':' <==> LastIndexOf(t, ':') == |t| - 1 && t != ""
    ensures (LastIndexOf(t, ':') >= 0 <==> ':' in t) && (LastIndexOf(t, '/') >= 0 <==> '/' in t)
  {
  }

  lemma Marked(b: string, t: string)
    ensures |b + ":" + t| == |b| + 1 + |t| && LastIndexOf(b, '/') < |b|
  {
  }

  /** How a reference is made up: its base, the tag after a colon if there is one, and the digest after an
      at-sign. A tag has no slash and no colon; a colon before the last slash belongs to the base. */
  lemma MadeUpOf(image: string)
    ensures var base := WithoutDigest(image);
            && '@' !in base && base <= image && (base < image ==> image[|base|] == '@')
            && '/' !in TagOf(image) && ':' !in TagOf(image)
            && (base == Base(image) + ":" + TagOf(image) || (base == Base(image) && TagOf(image) == ""))
            && (base == Base(image) <==> LastIndexOf(base, ':') <= LastIndexOf(base, '/'))
  {
    BeforeFacts(image, '@');
    TagAfterLast(WithoutDigest(image));
  }

  lemma TagAfterLast(base: string)
    ensures var colon := LastIndexOf(base, ':');
            colon > LastIndexOf(base, '/') ==>
              base == base[..colon] + ":" + base[colon + 1..] && '/' !in base[colon + 1..] && ':' !in base[colon + 1..]
  {
    var colon := LastIndexOf(base, ':');
    if colon > LastIndexOf(base, '/') {
      var tag := base[colon + 1..];
      assert base == base[..colon] + [base[colon]] + tag;
      forall k | 0 <= k < |tag| ensures tag[k] != '/' && tag[k] != ':' { assert tag[k] == base[colon + 1 + k]; }
    }
  }
}
