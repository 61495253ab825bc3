/** `middleware.verifyCourseDetails`: the checks a course payload passes
    before a course is created or updated. */
module CourseValidation {
  import opened Wrappers
  import opened JsString
  import LinkPattern

  /** The JSON body of a course request. A field that is `undefined` or `null`
      is `None`; the price is a number compared only with 0. */
  datatype CoursePayload = CoursePayload(
    title: Option<string>,
    description: Option<string>,
    price: Option<real>,
    imageLink: Option<string>,
    published: Option<bool>)

  datatype Field = Title | Description | Price | ImageLink

  /** Outcome of the middleware. `Pass` calls the next handler; `Invalid`
      answers 401 with the field's message; `Crash` is the TypeError thrown by
      calling `.trim()` on a missing field, which never reaches the 401. */
  datatype Check = Pass | Invalid(field: Field) | Crash(field: Field)

  const InvalidStatus: nat := 401

  /** The body of the 401 answer, which starts with "Invalid course ". */
  function Message(f: Field): (m: string)
    ensures HasPrefix(m, "Invalid course ")
  {
    match f
    case Title => "Invalid course title"
    case Description => "Invalid course description"
    case Price => "Invalid course price"
    case ImageLink => "Invalid course link"
  }

  /** Each field has a message of its own, so the answer names the field. */
  lemma MessageNamesField(f: Field, g: Field)
    ensures Message(f) == Message(g) <==> f == g
  {
  }

  /** The order in which the middleware checks the fields. */
  const FieldOrder: seq<Field> := [Title, Description, Price, ImageLink]

  /** Position of a field in `FieldOrder`. */
  function Rank(f: Field): (k: nat)
    ensures k < |FieldOrder| && FieldOrder[k] == f
  {
    match f
    case Title => 0
    case Description => 1
    case Price => 2
    case ImageLink => 3
  }

  /** One field's test as the middleware writes it. `.trim()` runs before the
      null tests, so a missing text field throws, and the null tests after it
      never matter; a missing price is compared with 0 first (`undefined < 0`
      is false) and then caught by the null test. */
  function CheckField(body: CoursePayload, f: Field): (r: Check)
    ensures r == Pass || r == Invalid(f) || r == Crash(f)
  {
    match f
    case Title => CheckText(body.title, Title)
    case Description => CheckText(body.description, Description)
    case Price =>
      if body.price.None? || body.price.value < 0.0 then Invalid(Price) else Pass
    case ImageLink =>
      if body.imageLink.None? then Crash(ImageLink)
      else if IsBlank(body.imageLink.value) || !LinkPattern.MatchLink(body.imageLink.value) then Invalid(ImageLink)
      else Pass
  }

  function CheckText(value: Option<string>, f: Field): Check {
    if value.None? then Crash(f)
    else if IsBlank(value.value) then Invalid(f)
    else Pass
  }

  /** Runs the tests of `fields` in order and stops at the first that fails. */
  function FirstFailure(body: CoursePayload, fields: seq<Field>): (r: Check)
    ensures r != Pass ==> r.field in fields && CheckField(body, r.field) == r
    decreases |fields|
  {
    if fields == [] then Pass
    else
      var c := CheckField(body, fields[0]);
      if c != Pass then c else FirstFailure(body, fields[1..])
  }

  /** The middleware: title, description, price, image link, stopping at the
      first field that fails. */
  function VerifyCourseDetails(body: CoursePayload): (r: Check)
    ensures r != Pass ==> CheckField(body, r.field) == r
  {
    FirstFailure(body, FieldOrder)
  }

  /** What the middleware lets through: a title and a description with some
      non-space character, a price of at least 0, and an image link that
      matches the link pattern. */
  ghost predicate AcceptableCourse(body: CoursePayload) {
    body.title.Some? && HasVisibleChar(body.title.value) &&
    body.description.Some? && HasVisibleChar(body.description.value) &&
    body.price.Some? && body.price.value >= 0.0 &&
    body.imageLink.Some? && LinkPattern.MatchesLinkPattern(body.imageLink.value)
  }

  /** A matching link is never blank. */
  lemma MatchedLinkNotBlank(link: string)
    ensures LinkPattern.MatchLink(link) ==> !IsBlank(link)
  {
    if LinkPattern.MatchLink(link) {
      LinkPattern.ParseLinkMatchesPattern(link);
      LinkPattern.MatchedLinkShape(link);
      assert !IsJsSpace(link[0]);
    }
  }

  /** The per-field rules, stated without `trim`: a text field crashes when
      missing and is invalid when all whitespace; the price is invalid when
      missing or negative (so 0 is accepted); the link crashes when missing
      and is invalid exactly when it does not match the pattern (the blank
      test before the pattern adds nothing). */
  lemma FieldRules(body: CoursePayload)
    ensures CheckField(body, Title) == Crash(Title) <==> body.title.None?
    ensures CheckField(body, Title) == Pass <==> body.title.Some? && HasVisibleChar(body.title.value)
    ensures CheckField(body, Description) == Crash(Description) <==> body.description.None?
    ensures CheckField(body, Description) == Pass <==>
              body.description.Some? && HasVisibleChar(body.description.value)
    ensures CheckField(body, Price) == Pass <==> body.price.Some? && body.price.value >= 0.0
    ensures CheckField(body, ImageLink) == Crash(ImageLink) <==> body.imageLink.None?
    ensures CheckField(body, ImageLink) == Pass <==>
              body.imageLink.Some? && LinkPattern.MatchesLinkPattern(body.imageLink.value)
  {
    if body.imageLink.Some? {
      MatchedLinkNotBlank(body.imageLink.value);
      LinkPattern.ParseLinkMatchesPattern(body.imageLink.value);
    }
  }

  /** `FirstFailure` passes when every test passes, and otherwise returns the
      outcome of the first test that fails. */
  lemma {:induction false} FirstFailureFindsFirst(body: CoursePayload, fields: seq<Field>)
    ensures FirstFailure(body, fields) == Pass <==>
              forall k :: 0 <= k < |fields| ==> CheckField(body, fields[k]) == Pass
    ensures FirstFailure(body, fields) != Pass ==>
              exists k :: 0 <= k < |fields| && CheckField(body, fields[k]) == FirstFailure(body, fields) &&
                forall j :: 0 <= j < k ==> CheckField(body, fields[j]) == Pass
    decreases |fields|
  {
    if fields == [] {
      return;
    }
    if CheckField(body, fields[0]) != Pass {
      assert CheckField(body, fields[0]) == FirstFailure(body, fields);
      return;
    }
    var rest := fields[1..];
    FirstFailureFindsFirst(body, rest);
    assert FirstFailure(body, fields) == FirstFailure(body, rest);
    if FirstFailure(body, rest) != Pass {
      var k :| 0 <= k < |rest| && CheckField(body, rest[k]) == FirstFailure(body, rest) &&
               forall j :: 0 <= j < k ==> CheckField(body, rest[j]) == Pass;
      assert fields[k + 1] == rest[k];
      forall j | 0 <= j < k + 1 ensures CheckField(body, fields[j]) == Pass {
        if j > 0 { assert fields[j] == rest[j - 1]; }
      }
    } else {
      forall k | 0 <= k < |fields| ensures CheckField(body, fields[k]) == Pass {
        if k > 0 { assert fields[k] == rest[k - 1]; }
      }
    }
  }

  /** The middleware reports the first field, in the order title,
      description, price, image link, whose own test fails, with that test's
      outcome; it passes exactly when every test passes. */
  lemma ReportsFirstFailure(body: CoursePayload)
    ensures VerifyCourseDetails(body) == Pass <==> forall f :: CheckField(body, f) == Pass
    ensures var r := VerifyCourseDetails(body);
            r != Pass ==>
              CheckField(body, r.field) == r &&
              forall g :: Rank(g) < Rank(r.field) ==> CheckField(body, g) == Pass
  {
    FirstFailureFindsFirst(body, FieldOrder);
    var r := VerifyCourseDetails(body);
    if r == Pass {
      forall f ensures CheckField(body, f) == Pass {
        assert FieldOrder[Rank(f)] == f;
      }
    } else {
      var k :| 0 <= k < |FieldOrder| && CheckField(body, FieldOrder[k]) == r &&
               forall j :: 0 <= j < k ==> CheckField(body, FieldOrder[j]) == Pass;
      assert r.field == FieldOrder[k];
      assert Rank(r.field) == k;
      forall g | Rank(g) < Rank(r.field) ensures CheckField(body, g) == Pass {
        assert FieldOrder[Rank(g)] == g;
      }
    }
  }

  /** The middleware lets a payload through exactly when it is acceptable. */
  lemma PassIffAcceptable(body: CoursePayload)
    ensures VerifyCourseDetails(body) == Pass <==> AcceptableCourse(body)
  {
    ReportsFirstFailure(body);
    FieldRules(body);
  }

  /** A title of only whitespace is refused with "Invalid course title". */
  lemma WhitespaceTitleRejected(body: CoursePayload)
    requires body.title.Some?
    requires forall i :: 0 <= i < |body.title.value| ==> IsJsSpace(body.title.value[i])
    ensures VerifyCourseDetails(body) == Invalid(Title)
    ensures Message(VerifyCourseDetails(body).field) == "Invalid course title"
  {
  }

  /** Behind a good title, a description of only whitespace is refused with
      "Invalid course description". */
  lemma WhitespaceDescriptionRejected(body: CoursePayload)
    requires body.title.Some? && HasVisibleChar(body.title.value)
    requires body.description.Some?
    requires forall i :: 0 <= i < |body.description.value| ==> IsJsSpace(body.description.value[i])
    ensures VerifyCourseDetails(body) == Invalid(Description)
    ensures Message(VerifyCourseDetails(body).field) == "Invalid course description"
  {
    FieldRules(body);
  }

  /** Behind a good title, description and price, a link that does not match
      the pattern is refused with "Invalid course link". */
  lemma BadLinkRejected(body: CoursePayload)
    requires body.title.Some? && HasVisibleChar(body.title.value)
    requires body.description.Some? && HasVisibleChar(body.description.value)
    requires body.price.Some? && body.price.value >= 0.0
    requires body.imageLink.Some? && !LinkPattern.MatchesLinkPattern(body.imageLink.value)
    ensures VerifyCourseDetails(body) == Invalid(ImageLink)
    ensures Message(VerifyCourseDetails(body).field) == "Invalid course link"
  {
    FieldRules(body);
  }

  /** Every payload that gets through carries a link starting with `http://`
      or `https://`. */
  lemma PassedLinkHasScheme(body: CoursePayload)
    requires VerifyCourseDetails(body) == Pass
    ensures body.imageLink.Some?
    ensures HasPrefix(body.imageLink.value, "http://") || HasPrefix(body.imageLink.value, "https://")
  {
    PassIffAcceptable(body);
    LinkPattern.MatchedLinkShape(body.imageLink.value);
  }

  /** A missing title throws before anything is answered. */
  lemma MissingTitleCrashes(body: CoursePayload)
    requires body.title.None?
    ensures VerifyCourseDetails(body) == Crash(Title)
  {
  }

  /** Behind a good title and description, a missing or negative price is
      refused with "Invalid course price". */
  lemma BadPriceRejected(body: CoursePayload)
    requires body.title.Some? && HasVisibleChar(body.title.value)
    requires body.description.Some? && HasVisibleChar(body.description.value)
    requires body.price.None? || body.price.value < 0.0
    ensures VerifyCourseDetails(body) == Invalid(Price)
    ensures Message(VerifyCourseDetails(body).field) == "Invalid course price"
  {
    FieldRules(body);
  }
}
