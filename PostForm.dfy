/**
 * The create/edit form: field validation, the payload it submits, and the choice
 * between the create and update mutations.
 */
module PostForm {
  import opened Wrappers
  import opened Text
  import opened Types
  import opened Constants
  import PostsCache

  datatype Field = TitleField | BodyField | UserIdField

  const SelectAuthorMessage: string := "Please select an author"
  const FixErrorsMessage: string := "Please fix the errors in the form"

  /** A trimmed value whose UTF-16 length lies within the bounds. */
  predicate WithinBounds(value: string, min: nat, max: nat) {
    min <= Utf16Length(Trim(value)) <= max
  }

  /** The condition under which validation passes. */
  predicate FieldsValid(title: string, body: string, userId: string) {
    WithinBounds(title, TitleMinLength, TitleMaxLength)
    && WithinBounds(body, BodyMinLength, BodyMaxLength)
    && userId != []
  }

  /**
   * The rules for a length-checked field `f`: it has a message exactly when the trimmed
   * value is out of bounds, and the message is required when blank, the minimum when
   * too short and the maximum when too long, checked in that order.
   */
  predicate LengthFieldReported(errors: map<Field, string>, f: Field, value: string, min: nat, max: nat) {
    && (f in errors <==> !WithinBounds(value, min, max))
    && ((f in errors && errors[f] == RequiredMessage) <==> Trim(value) == [])
    && ((f in errors && errors[f] == MinLengthMessage(min)) <==> 0 < Utf16Length(Trim(value)) < min)
    && ((f in errors && errors[f] == MaxLengthMessage(max)) <==> Utf16Length(Trim(value)) > max)
  }

  /**
   * What `validateForm` records, field by field; the author only needs to be set.
   * These rules leave exactly one possible record (`ReportsErrorsUnique`).
   */
  predicate ReportsErrors(errors: map<Field, string>, title: string, body: string, userId: string) {
    && LengthFieldReported(errors, TitleField, title, TitleMinLength, TitleMaxLength)
    && LengthFieldReported(errors, BodyField, body, BodyMinLength, BodyMaxLength)
    && (UserIdField in errors <==> userId == [])
    && (UserIdField in errors ==> errors[UserIdField] == SelectAuthorMessage)
  }

  /** The rules determine the record: two records that both follow them are equal. */
  lemma ReportsErrorsUnique(e1: map<Field, string>, e2: map<Field, string>, title: string, body: string, userId: string)
    requires ReportsErrors(e1, title, body, userId) && ReportsErrors(e2, title, body, userId)
    ensures e1 == e2
  {
    forall f ensures (f in e1 <==> f in e2) && (f in e1 ==> e1[f] == e2[f]) {
      match f
      case TitleField => LengthFieldDetermined(e1, e2, f, title, TitleMinLength, TitleMaxLength);
      case BodyField => LengthFieldDetermined(e1, e2, f, body, BodyMinLength, BodyMaxLength);
      case UserIdField =>
    }
  }

  /** A length field's message is fixed by which of blank, too short and too long holds. */
  lemma LengthFieldDetermined(e1: map<Field, string>, e2: map<Field, string>, f: Field, value: string, min: nat, max: nat)
    requires 0 < min <= max
    requires LengthFieldReported(e1, f, value, min, max) && LengthFieldReported(e2, f, value, min, max)
    ensures (f in e1 <==> f in e2) && (f in e1 ==> e1[f] == e2[f])
  {
    if f in e1 {
      var n := Utf16Length(Trim(value));
      assert Trim(value) == [] <==> n == 0;
      if n == 0 {
        assert e1[f] == RequiredMessage && e2[f] == RequiredMessage;
      } else if n < min {
        assert e1[f] == MinLengthMessage(min) && e2[f] == MinLengthMessage(min);
      } else {
        assert e1[f] == MaxLengthMessage(max) && e2[f] == MaxLengthMessage(max);
      }
    }
  }

  /**
   * `validateForm`: builds the error record from scratch, field by field, and reports
   * the form valid exactly when no field got a message.
   */
  method ValidateForm(title: string, body: string, userId: string) returns (errors: map<Field, string>, valid: bool)
    ensures ReportsErrors(errors, title, body, userId)
    ensures valid <==> errors == map[]
    ensures valid <==> FieldsValid(title, body, userId)
  {
    LengthMessagesDistinct(TitleMinLength, TitleMaxLength);
    LengthMessagesDistinct(BodyMinLength, BodyMaxLength);
    var newErrors: map<Field, string> := map[];

    var title' := Trim(title);
    if title' == [] {
      newErrors := newErrors[TitleField := RequiredMessage];
    } else if Utf16Length(title') < TitleMinLength {
      newErrors := newErrors[TitleField := MinLengthMessage(TitleMinLength)];
    } else if Utf16Length(title') > TitleMaxLength {
      newErrors := newErrors[TitleField := MaxLengthMessage(TitleMaxLength)];
    }

    var body' := Trim(body);
    if body' == [] {
      newErrors := newErrors[BodyField := RequiredMessage];
    } else if Utf16Length(body') < BodyMinLength {
      newErrors := newErrors[BodyField := MinLengthMessage(BodyMinLength)];
    } else if Utf16Length(body') > BodyMaxLength {
      newErrors := newErrors[BodyField := MaxLengthMessage(BodyMaxLength)];
    }

    if userId == [] {
      newErrors := newErrors[UserIdField := SelectAuthorMessage];
    }

    errors := newErrors;
    valid := |errors.Keys| == 0;
    assert valid <==> !(TitleField in errors || BodyField in errors || UserIdField in errors);
  }

  /** `isEditing = !!id`: the form edits when the route supplied a non-empty `:id`. */
  function IsEditing(routeId: Option<string>): (editing: bool)
    ensures editing <==> routeId != None && routeId != Some([])
  {
    routeId.Some? && routeId.value != []
  }

  /** The id the form's single-post query asks for: the parsed `:id` when editing, else 0. */
  function QueryId(routeId: Option<string>): (id: Number)
    ensures !IsEditing(routeId) ==> id == Num(0)
    ensures IsEditing(routeId) ==> id == ParseInt(routeId.value)
    ensures PostsCache.PostQueryEnabled(id) ==> IsEditing(routeId)
  {
    if IsEditing(routeId) then ParseInt(routeId.value) else Num(0)
  }

  /** The object `handleSubmit` sends: `id` is present only when editing. */
  datatype PostData = PostData(title: string, body: string, userId: Number, id: Option<Number>)

  function BuildPostData(title: string, body: string, userId: string, routeId: Option<string>): (d: PostData)
    ensures d.title == Trim(title) && d.body == Trim(body)
    ensures d.userId == ParseInt(userId)
    ensures d.id.Some? <==> IsEditing(routeId)
    ensures d.id.Some? ==> d.id.value == ParseInt(routeId.value)
    ensures Trim(d.title) == d.title && Trim(d.body) == d.body
    ensures Utf16Length(d.title) == Utf16Length(Trim(title)) && Utf16Length(d.body) == Utf16Length(Trim(body))
  {
    TrimIdempotent(title);
    TrimIdempotent(body);
    PostData(Trim(title), Trim(body), ParseInt(userId),
             if IsEditing(routeId) then Some(ParseInt(routeId.value)) else None)
  }

  /**
   * Opening the edit page of a post fills the form with its fields (the author as
   * `userId.toString()`); submitting it unchanged sends that same post back.
   */
  lemma EditUnchangedRoundTrip(p: Post)
    requires Trim(p.title) == p.title && Trim(p.body) == p.body
    ensures var routeId := RouteParam(EditRoute(p.id), EditPrefix);
            BuildPostData(p.title, p.body, IntToString(p.userId), routeId)
            == PostData(p.title, p.body, Num(p.userId), Some(Num(p.id)))
  {
    EditRouteRoundTrip(p.id);
    ParseIntToString(p.userId);
  }

  /** On the edit page of post `id`, the single-post query is enabled exactly when `id` is not 0. */
  lemma EditPageQueryEnabled(id: int)
    ensures PostsCache.PostQueryEnabled(QueryId(RouteParam(EditRoute(id), EditPrefix))) <==> id != 0
  {
    EditRouteRoundTrip(id);
  }

  /** The create page has no `:id`, so its single-post query stays disabled. */
  lemma CreatePageQueryDisabled()
    ensures !PostsCache.PostQueryEnabled(QueryId(RouteParam(CreateRoute, EditPrefix)))
  {
  }

  datatype SubmitAction =
    | Rejected(toast: string)
    | CreateRequested(data: PostData)
    | UpdateRequested(data: PostData)

  /**
   * `handleSubmit`: an invalid form only shows a toast and requests no mutation; a valid
   * one requests update when editing and create otherwise, with the built payload.
   */
  method HandleSubmit(title: string, body: string, userId: string, routeId: Option<string>)
    returns (action: SubmitAction, errors: map<Field, string>)
    ensures action.Rejected? <==> !FieldsValid(title, body, userId)
    ensures action.Rejected? <==> errors != map[]
    ensures ReportsErrors(errors, title, body, userId)
    ensures action.Rejected? ==> action.toast == FixErrorsMessage
    ensures action.UpdateRequested? <==> FieldsValid(title, body, userId) && IsEditing(routeId)
    ensures !action.Rejected? ==> action.data == BuildPostData(title, body, userId, routeId)
  {
    var valid;
    errors, valid := ValidateForm(title, body, userId);
    if !valid {
      action := Rejected(FixErrorsMessage);
      return;
    }
    var data := BuildPostData(title, body, userId, routeId);
    if IsEditing(routeId) {
      action := UpdateRequested(data);
    } else {
      action := CreateRequested(data);
    }
  }
}
