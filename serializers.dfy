/**
 * The note serializer's input rules (notes/serializers.py): a title or a
 * content is refused when Python's `value.strip()` is empty or when it holds
 * a NUL character, and is otherwise passed on unchanged; the title is also
 * held to the model's 255-character bound. `owner` is read-only, so a request
 * body cannot set it.
 */
module Serializers {
  import opened Wrappers
  import opened Models

  /** The ASCII characters Python's `str.strip()` removes: \t \n \v \f \r, 0x1C-0x1F and space. */
  predicate IsWhitespace(c: char)
  {
    ('\t' <= c <= '\r') || ('\U{1C}' <= c <= '\U{1F}') || c == ' '
  }

  /** `s` without its leading whitespace. */
  function StripLeft(s: string): string
  {
    if s != [] && IsWhitespace(s[0]) then StripLeft(s[1..]) else s
  }

  /** `s` without its trailing whitespace. */
  function StripRight(s: string): string
  {
    if s != [] && IsWhitespace(s[|s| - 1]) then StripRight(s[..|s| - 1]) else s
  }

  /**
   * Python's `s.strip()` with no argument: the middle of `s` that is left
   * once the longest whitespace prefix and the longest whitespace suffix are
   * dropped. `i` is where the kept middle starts.
   */
  function Strip(s: string): (r: string)
    ensures |StripLeft(s)| <= |s|
    ensures var i := |s| - |StripLeft(s)|;
      && i + |r| <= |s| && r == s[i..i + |r|]
      && (forall k :: 0 <= k < i ==> IsWhitespace(s[k]))
      && (forall k :: i + |r| <= k < |s| ==> IsWhitespace(s[k]))
      && (r != [] ==> !IsWhitespace(r[0]) && !IsWhitespace(r[|r| - 1]))
  {
    StripLeftSuffix(s);
    StripRightPrefix(StripLeft(s));
    StripRight(StripLeft(s))
  }

  /** `value.strip()` is truthy exactly when the string holds a character that is not whitespace. */
  function NonBlank(s: string): (b: bool)
    ensures b <==> exists k :: 0 <= k < |s| && !IsWhitespace(s[k])
  {
    var r := Strip(s);
    assert r != [] ==> s[|s| - |StripLeft(s)|] == r[0];
    r != []
  }

  /** StripLeft drops a whitespace prefix and keeps the rest, which starts with a visible character if anything. */
  lemma {:induction false} StripLeftSuffix(s: string)
    ensures |StripLeft(s)| <= |s| && StripLeft(s) == s[|s| - |StripLeft(s)|..]
    ensures forall k :: 0 <= k < |s| - |StripLeft(s)| ==> IsWhitespace(s[k])
    ensures StripLeft(s) != [] ==> !IsWhitespace(StripLeft(s)[0])
  {
    if s != [] && IsWhitespace(s[0]) {
      var t := s[1..];
      StripLeftSuffix(t);
      var r := StripLeft(t);
      assert StripLeft(s) == r;
      assert t[|t| - |r|..] == s[|s| - |r|..];
      forall k | 1 <= k < |s| - |r| ensures IsWhitespace(s[k]) {
        assert s[k] == t[k - 1];
      }
    } else {
      assert StripLeft(s) == s;
    }
  }

  /** StripRight drops a whitespace suffix and keeps the rest, which ends with a visible character if anything. */
  lemma {:induction false} StripRightPrefix(s: string)
    ensures |StripRight(s)| <= |s| && StripRight(s) == s[..|StripRight(s)|]
    ensures forall k :: |StripRight(s)| <= k < |s| ==> IsWhitespace(s[k])
    ensures StripRight(s) != [] ==> !IsWhitespace(StripRight(s)[|StripRight(s)| - 1])
  {
    if s != [] && IsWhitespace(s[|s| - 1]) {
      var t := s[..|s| - 1];
      StripRightPrefix(t);
      var r := StripRight(t);
      assert StripRight(s) == r;
      assert t[..|r|] == s[..|r|];
      forall k | |r| <= k < |s| - 1 ensures IsWhitespace(s[k]) {
        assert s[k] == t[k];
      }
    } else {
      assert StripRight(s) == s;
    }
  }

  /** Why a field was refused: over the model's length bound, holding a NUL character, or blank after stripping. */
  datatype FieldError = TooLong | NullCharacter | Blank

  /** `validate_title`: refuse a blank title, otherwise return it exactly as received. */
  function ValidateTitle(value: string): (r: Result<string, FieldError>)
    ensures r.Success? <==> exists k :: 0 <= k < |value| && !IsWhitespace(value[k])
    ensures r.Success? ==> r.value == value
    ensures r.Failure? ==> r.error == Blank
  {
    if !NonBlank(value) then Failure(Blank) else Success(value)
  }

  /** `validate_content`: refuse a blank content, otherwise return it exactly as received. */
  function ValidateContent(value: string): (r: Result<string, FieldError>)
    ensures r.Success? <==> exists k :: 0 <= k < |value| && !IsWhitespace(value[k])
    ensures r.Success? ==> r.value == value
    ensures r.Failure? ==> r.error == Blank
  {
    if !NonBlank(value) then Failure(Blank) else Success(value)
  }

  /**
   * The title field as a whole. The serializer's field for the model's
   * CharField runs all of its validators, max_length=255 and the refusal of
   * NUL characters, and reports every one that fails; `validate_title` runs
   * only when none does.
   */
  function ValidateTitleField(value: string): (r: Result<string, set<FieldError>>)
    ensures r.Success? <==> |value| <= TitleMaxLength && '\0' !in value && NonBlank(value)
    ensures r.Success? ==> r.value == value && |r.value| <= TitleMaxLength
    ensures r.Failure? ==> (TooLong in r.error <==> |value| > TitleMaxLength)
    ensures r.Failure? ==> (NullCharacter in r.error <==> '\0' in value)
    ensures r.Failure? ==> (Blank in r.error <==> |value| <= TitleMaxLength && '\0' !in value && !NonBlank(value))
    ensures r.Failure? ==> r.error != {}
  {
    var failed := (if |value| > TitleMaxLength then {TooLong} else {})
                + (if '\0' in value then {NullCharacter} else {});
    if failed != {} then Failure(failed)
    else if ValidateTitle(value).Failure? then Failure({ValidateTitle(value).error})
    else Success(ValidateTitle(value).value)
  }

  /**
   * The content field as a whole: the serializer's field for the model's
   * TextField refuses NUL characters; `validate_content` runs only when it passes.
   */
  function ValidateContentField(value: string): (r: Result<string, set<FieldError>>)
    ensures r.Success? <==> '\0' !in value && NonBlank(value)
    ensures r.Success? ==> r.value == value
    ensures r.Failure? ==> (NullCharacter in r.error <==> '\0' in value)
    ensures r.Failure? ==> (Blank in r.error <==> '\0' !in value && !NonBlank(value))
    ensures r.Failure? ==> TooLong !in r.error && r.error != {}
  {
    if '\0' in value then Failure({NullCharacter})
    else if ValidateContent(value).Failure? then Failure({ValidateContent(value).error})
    else Success(ValidateContent(value).value)
  }

  /**
   * A request body for create or update: the field values as the validators
   * receive them. `owner` is whatever the client sent for the read-only field.
   */
  datatype NoteBody = NoteBody(title: string, content: string, owner: Option<UserId>)

  /** The serializer's validated data: the writable fields only. */
  datatype NoteFields = NoteFields(title: string, content: string)

  /**
   * The per-field errors of a refused body (`serializer.errors`): both fields
   * are checked, and a field with no error has the empty set.
   */
  datatype NoteErrors = NoteErrors(title: set<FieldError>, content: set<FieldError>)

  /** What the serializer accepts, stated without the validators. */
  predicate Acceptable(body: NoteBody)
  {
    && |body.title| <= TitleMaxLength
    && '\0' !in body.title
    && '\0' !in body.content
    && (exists k :: 0 <= k < |body.title| && !IsWhitespace(body.title[k]))
    && (exists k :: 0 <= k < |body.content| && !IsWhitespace(body.content[k]))
  }

  /**
   * `serializer.is_valid()` followed by `validated_data`: accepted exactly
   * when both fields are, the accepted fields are the values as the
   * validators received them, the read-only owner is dropped, and a refusal
   * names every failing field with every reason it fails.
   */
  function ValidateNote(body: NoteBody): (r: Result<NoteFields, NoteErrors>)
    ensures r.Success? <==> Acceptable(body)
    ensures r.Success? ==> r.value == NoteFields(body.title, body.content)
    ensures r.Failure? ==> (r.error.title != {} <==> ValidateTitleField(body.title).Failure?)
    ensures r.Failure? ==> (r.error.content != {} <==> ValidateContentField(body.content).Failure?)
    ensures r.Failure? && ValidateTitleField(body.title).Failure? ==> r.error.title == ValidateTitleField(body.title).error
    ensures r.Failure? && ValidateContentField(body.content).Failure? ==> r.error.content == ValidateContentField(body.content).error
  {
    var t := ValidateTitleField(body.title);
    var c := ValidateContentField(body.content);
    if t.Success? && c.Success? then Success(NoteFields(t.value, c.value))
    else Failure(NoteErrors(
      if t.Failure? then t.error else {},
      if c.Failure? then c.error else {}))
  }
}
