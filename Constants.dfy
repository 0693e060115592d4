/** Validation bounds and messages, sort orders and the route builders. */
module Constants {
  import opened Wrappers
  import opened Text

  const PostsEndpoint: string := "/posts"

  const TitleMinLength: nat := 3
  const TitleMaxLength: nat := 100
  const BodyMinLength: nat := 10
  const BodyMaxLength: nat := 1000

  const RequiredMessage: string := "This field is required"
  const MinLengthPrefix: string := "Must be at least "
  const MaxLengthPrefix: string := "Must be no more than "
  const CharactersSuffix: string := " characters"

  /** Each pair of bounds leaves room for a valid value. */
  lemma BoundsOrdered()
    ensures 0 < TitleMinLength < TitleMaxLength
    ensures 0 < BodyMinLength < BodyMaxLength
  {
  }

  /** The message for a value shorter than `min`. */
  function MinLengthMessage(min: nat): (msg: string)
    ensures |msg| > |MinLengthPrefix| && msg[..|MinLengthPrefix|] == MinLengthPrefix
  {
    MinLengthPrefix + IntToString(min) + CharactersSuffix
  }

  /** The message for a value longer than `max`. */
  function MaxLengthMessage(max: nat): (msg: string)
    ensures |msg| > |MaxLengthPrefix| && msg[..|MaxLengthPrefix|] == MaxLengthPrefix
  {
    MaxLengthPrefix + IntToString(max) + CharactersSuffix
  }

  /** The bound can be read back from a length message with `parseInt`. */
  lemma MinLengthMessageBound(min: nat)
    ensures ParseInt(MinLengthMessage(min)[|MinLengthPrefix|..]) == Num(min)
  {
    var msg := MinLengthMessage(min);
    assert msg[|MinLengthPrefix|..] == IntToString(min) + CharactersSuffix;
    ParseIntToStringPrefix(min, CharactersSuffix);
  }

  lemma MaxLengthMessageBound(max: nat)
    ensures ParseInt(MaxLengthMessage(max)[|MaxLengthPrefix|..]) == Num(max)
  {
    var msg := MaxLengthMessage(max);
    assert msg[|MaxLengthPrefix|..] == IntToString(max) + CharactersSuffix;
    ParseIntToStringPrefix(max, CharactersSuffix);
  }

  /**
   * The three kinds of length message never coincide, and each length message names
   * its bound, so a message tells which rule failed and at which bound.
   */
  lemma LengthMessagesDistinct(a: nat, b: nat)
    ensures MinLengthMessage(a) != MaxLengthMessage(b)
    ensures MinLengthMessage(a) != RequiredMessage
    ensures MaxLengthMessage(b) != RequiredMessage
    ensures MinLengthMessage(a) == MinLengthMessage(b) ==> a == b
    ensures MaxLengthMessage(a) == MaxLengthMessage(b) ==> a == b
  {
    assert MinLengthMessage(a)[8] == 'a' && MaxLengthMessage(b)[8] == 'n';
    assert RequiredMessage[0] == 'T';
    MinLengthMessageBound(a);
    MinLengthMessageBound(b);
    MaxLengthMessageBound(a);
    MaxLengthMessageBound(b);
  }

  datatype SortOrder = Asc | Desc

  const CreateRoute: string := "/create"
  const EditPrefix: string := "/edit/"
  const PostDetailPrefix: string := "/post/"

  /** The edit page of post `id`. */
  function EditRoute(id: int): (path: string)
    ensures |path| > |EditPrefix| && path[..|EditPrefix|] == EditPrefix
  {
    EditPrefix + IntToString(id)
  }

  /** The detail page of post `id`. */
  function PostDetailRoute(id: int): (path: string)
    ensures |path| > |PostDetailPrefix| && path[..|PostDetailPrefix|] == PostDetailPrefix
  {
    PostDetailPrefix + IntToString(id)
  }

  /**
   * The `:id` parameter when `path` matches the route pattern `prefix + ":id"`: the
   * rest of the path is one non-empty segment.
   */
  function RouteParam(path: string, prefix: string): (id: Option<string>)
    ensures id.Some? ==> path == prefix + id.value && id.value != [] && '/' !in id.value
    ensures (|path| > |prefix| && path[..|prefix|] == prefix && '/' !in path[|prefix|..]) ==> id.Some?
  {
    if |path| > |prefix| && path[..|prefix|] == prefix && '/' !in path[|prefix|..]
    then Some(path[|prefix|..])
    else None
  }

  /** Following an edit link and parsing its `:id` as the form does yields the post's id. */
  lemma EditRouteRoundTrip(id: int)
    ensures RouteParam(EditRoute(id), EditPrefix) == Some(IntToString(id))
    ensures ParseInt(RouteParam(EditRoute(id), EditPrefix).value) == Num(id)
  {
    var path := EditRoute(id);
    assert path[|EditPrefix|..] == IntToString(id);
    assert '/' !in IntToString(id) by {
      var s := IntToString(id);
      assert forall j :: 0 <= j < |s| ==> s[j] == '-' || DigitValue(s[j]) < 10;
    }
    ParseIntToString(id);
  }

  /** Following a detail link and parsing its `:id` as the detail page does yields the post's id. */
  lemma PostDetailRouteRoundTrip(id: int)
    ensures RouteParam(PostDetailRoute(id), PostDetailPrefix) == Some(IntToString(id))
    ensures ParseInt(RouteParam(PostDetailRoute(id), PostDetailPrefix).value) == Num(id)
  {
    var path := PostDetailRoute(id);
    assert path[|PostDetailPrefix|..] == IntToString(id);
    assert '/' !in IntToString(id) by {
      var s := IntToString(id);
      assert forall j :: 0 <= j < |s| ==> s[j] == '-' || DigitValue(s[j]) < 10;
    }
    ParseIntToString(id);
  }
}
