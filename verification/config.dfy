/**
 * Loading the user's list of ShellCheck codes to suppress
 * (`ShellCheck._load_config`, `_read_config_file`, `_parse_and_validate_codes`).
 *
 * The settings file is JSON extended with whole-line comments: lines are
 * filtered before parsing, the JSON value is checked for shape, and only
 * entries of the form `SC<digits>` are kept.
 */
module Config {
  import opened Wrappers
  import opened Text
  import opened Json

  // ---------------------------------------------------------------------------
  // The comment-line filter of `_read_config_file`

  /** A line survives when its stripped form is non-empty and does not start
      with `//` or `#`. */
  predicate KeepLine(ln: string) {
    var s := Strip(ln);
    s != [] && !StartsWith(s, "//") && !StartsWith(s, "#")
  }

  /** The lines the comprehension keeps, in file order. */
  function KeptLines(lines: seq<string>): (r: seq<string>)
    ensures |r| <= |lines|
    ensures forall ln :: ln in r <==> ln in lines && KeepLine(ln)
  {
    if lines == [] then []
    else (if KeepLine(lines[0]) then [lines[0]] else []) + KeptLines(lines[1..])
  }

  /** Python's `''.join(parts)`: concatenation with no separator. */
  function Concat(parts: seq<string>): string {
    if parts == [] then [] else parts[0] + Concat(parts[1..])
  }

  /** The text handed to the JSON parser: the kept lines, each with its own
      line ending, joined and then stripped. */
  function ConfigContent(lines: seq<string>): string {
    Strip(Concat(KeptLines(lines)))
  }

  /** The filter keeps lines in their original order: filtering a file in two
      pieces and joining the results is filtering the whole file. */
  lemma {:induction false} KeptLinesAppend(a: seq<string>, b: seq<string>)
    ensures KeptLines(a + b) == KeptLines(a) + KeptLines(b)
  {
    if a == [] {
      assert a + b == b;
    } else {
      assert (a + b)[1..] == a[1..] + b;
      KeptLinesAppend(a[1..], b);
    }
  }

  /** Concatenation of the kept lines, one line at a time. */
  lemma {:induction false} ConcatAppend(a: seq<string>, b: seq<string>)
    ensures Concat(a + b) == Concat(a) + Concat(b)
  {
    if a == [] {
      assert a + b == b;
    } else {
      assert (a + b)[1..] == a[1..] + b;
      ConcatAppend(a[1..], b);
    }
  }

  lemma ConcatSingle(part: string)
    ensures Concat([part]) == part
  {
    assert [part][1..] == [];
    assert part + [] == part;
  }

  /** The content is empty, so parsing is skipped, exactly when every line of
      the file was blank or a comment. */
  lemma ConfigContentEmpty(lines: seq<string>)
    ensures ConfigContent(lines) == [] <==> KeptLines(lines) == []
  {
    var kept := KeptLines(lines);
    if kept != [] {
      assert kept[0] in kept;
      assert !AllSpace(kept[0]);
      var j :| 0 <= j < |kept[0]| && !IsSpace(kept[0][j]);
      assert Concat(kept)[j] == kept[0][j];
    }
  }

  // ---------------------------------------------------------------------------
  // The code check of `_parse_and_validate_codes`

  /** A well-formed code: the prefix `SC` followed by one or more digits and
      nothing else. */
  predicate IsIgnoreCode(s: string) {
    StartsWith(s, "SC") && IsDigits(s[2..])
  }

  /** An array entry that is a JSON string holding a well-formed code. */
  predicate IsIgnoreCodeEntry(v: JsonValue) {
    v.JString? && IsIgnoreCode(v.text)
  }

  /** The comprehension `valid`: the texts of the well-formed entries, in
      input order. */
  function ValidCodes(codes: seq<JsonValue>): (r: seq<string>)
    ensures |r| <= |codes|
    ensures forall c :: c in r <==> JString(c) in codes && IsIgnoreCode(c)
  {
    if codes == [] then []
    else (if IsIgnoreCodeEntry(codes[0]) then [codes[0].text] else []) + ValidCodes(codes[1..])
  }

  /** Reference definition of the rejected entries: those failing the check,
      in input order. */
  function Dropped(codes: seq<JsonValue>): (r: seq<JsonValue>)
    ensures |r| <= |codes|
    ensures forall c :: c in r <==> c in codes && !IsIgnoreCodeEntry(c)
  {
    if codes == [] then []
    else (if IsIgnoreCodeEntry(codes[0]) then [] else [codes[0]]) + Dropped(codes[1..])
  }

  /** Python's `c in valid` for a JSON value and a list of strings: a value
      other than a string equals no string. */
  predicate InList(c: JsonValue, valid: seq<string>) {
    c.JString? && c.text in valid
  }

  /** The invalid list as the source computes it: every entry that is not a
      member of the list of kept codes, in input order. */
  function InvalidAsWritten(codes: seq<JsonValue>, valid: seq<string>): seq<JsonValue> {
    if codes == [] then []
    else (if InList(codes[0], valid) then [] else [codes[0]]) + InvalidAsWritten(codes[1..], valid)
  }

  /** Order is preserved: validating two pieces and joining the results is
      validating the whole array. */
  lemma {:induction false} ValidCodesAppend(a: seq<JsonValue>, b: seq<JsonValue>)
    ensures ValidCodes(a + b) == ValidCodes(a) + ValidCodes(b)
  {
    if a == [] {
      assert a + b == b;
    } else {
      assert (a + b)[1..] == a[1..] + b;
      ValidCodesAppend(a[1..], b);
    }
  }

  /** An array of well-formed codes is kept whole: nothing is dropped and the
      order is unchanged. */
  lemma {:induction false} ValidCodesAllWellFormed(codes: seq<JsonValue>)
    requires forall i :: 0 <= i < |codes| ==> IsIgnoreCodeEntry(codes[i])
    ensures |ValidCodes(codes)| == |codes|
    ensures forall i :: 0 <= i < |codes| ==> JString(ValidCodes(codes)[i]) == codes[i]
  {
    if codes != [] {
      ValidCodesAllWellFormed(codes[1..]);
    }
  }

  /** Every entry is either kept or dropped, never both and never neither. */
  lemma {:induction false} PartitionLength(codes: seq<JsonValue>)
    ensures |ValidCodes(codes)| + |Dropped(codes)| == |codes|
  {
    if codes != [] {
      PartitionLength(codes[1..]);
    }
  }

  lemma {:induction false} InvalidAsWrittenOnPart(part: seq<JsonValue>, valid: seq<string>)
    requires forall c :: c in part ==> (InList(c, valid) <==> IsIgnoreCodeEntry(c))
    ensures InvalidAsWritten(part, valid) == Dropped(part)
  {
    if part != [] {
      assert part[0] in part;
      InvalidAsWrittenOnPart(part[1..], valid);
    }
  }

  /** The reported invalid list, computed by membership in `valid`, is exactly
      the entries that failed the check, in input order. */
  lemma InvalidIsDropped(codes: seq<JsonValue>)
    ensures InvalidAsWritten(codes, ValidCodes(codes)) == Dropped(codes)
  {
    var valid := ValidCodes(codes);
    forall c | c in codes ensures InList(c, valid) <==> IsIgnoreCodeEntry(c) {
      if c.JString? {
        assert JString(c.text) == c;
      }
    }
    InvalidAsWrittenOnPart(codes, valid);
  }

  /** What validating an array yields: the codes kept and, when the warning is
      printed, the list it reports. */
  datatype Validation = Validation(valid: seq<string>, invalidWarning: Option<seq<JsonValue>>)

  const NothingLoaded := Validation([], None)

  /** The comprehension and the warning of `_parse_and_validate_codes`. The
      warning is printed exactly when some entry was rejected, and it names
      every rejected entry and nothing else. */
  function ValidateCodes(codes: seq<JsonValue>): (r: Validation)
    ensures r.valid == ValidCodes(codes)
    ensures r.invalidWarning.Some? <==> exists i :: 0 <= i < |codes| && !IsIgnoreCodeEntry(codes[i])
    ensures r.invalidWarning.Some? ==> r.invalidWarning.value == Dropped(codes)
  {
    var valid := ValidCodes(codes);
    PartitionLength(codes);
    InvalidIsDropped(codes);
    assert (exists i :: 0 <= i < |codes| && !IsIgnoreCodeEntry(codes[i])) <==> Dropped(codes) != [] by {
      if Dropped(codes) != [] {
        assert Dropped(codes)[0] in Dropped(codes);
      }
    }
    Validation(valid, if |valid| != |codes| then Some(InvalidAsWritten(codes, valid)) else None)
  }

  /** The `ignore_codes` member of an object, defaulting to an empty array
      when the key is missing. */
  function IgnoreCodesField(fields: map<string, JsonValue>): JsonValue {
    if "ignore_codes" in fields then fields["ignore_codes"] else JArray([])
  }

  /** `_parse_and_validate_codes` applied to the parser's outcome (`None` when
      `json.loads` raised `JSONDecodeError`). Every code returned is
      well-formed, and a value with the expected shape is validated whole. */
  function ParseAndValidateCodes(parsed: Option<JsonValue>): (r: Validation)
    ensures forall c :: c in r.valid ==> IsIgnoreCode(c)
    ensures parsed.Some? && parsed.value.JObject? && IgnoreCodesField(parsed.value.fields).JArray?
            ==> r == ValidateCodes(IgnoreCodesField(parsed.value.fields).items)
  {
    match parsed
    case None => NothingLoaded
    case Some(config) =>
      if !config.JObject? then NothingLoaded
      else
        var codes := IgnoreCodesField(config.fields);
        if !codes.JArray? then NothingLoaded
        else
          var r := ValidateCodes(codes.items);
          assert forall c :: c in r.valid ==> JString(c) in codes.items && IsIgnoreCode(c);
          r
  }

  /** Every malformed shape loads nothing and warns about nothing: a parse
      error, a top level that is not an object, an `ignore_codes` that is not
      an array, and a missing `ignore_codes` (which defaults to `[]`). */
  lemma MalformedConfigLoadsNothing(parsed: Option<JsonValue>)
    requires || parsed.None?
             || !parsed.value.JObject?
             || !IgnoreCodesField(parsed.value.fields).JArray?
             || "ignore_codes" !in parsed.value.fields
    ensures ParseAndValidateCodes(parsed) == NothingLoaded
  {
    if parsed.Some? && parsed.value.JObject? && "ignore_codes" !in parsed.value.fields {
      assert IgnoreCodesField(parsed.value.fields) == JArray([]);
      assert ValidCodes([]) == [];
    }
  }

  // ---------------------------------------------------------------------------
  // `_load_config`

  /** What reading the settings file produced: no file at the settings path,
      a read that raised (a decode error whose retry in the platform encoding
      also failed, or any other error on the first read), or the file's lines,
      each with its line ending. */
  datatype ConfigFile = Absent | Unreadable | Lines(lines: seq<string>)

  /** `_load_config`, with `json.loads` as a parameter (`None` when it raises
      `JSONDecodeError`).
      The result only ever holds well-formed codes. It is empty, without the
      parser being consulted, when the file is missing, unreadable, or holds
      nothing but blank and comment lines; otherwise the filtered content is
      parsed and the validated codes are returned. */
  function LoadConfig(file: ConfigFile, jsonLoads: string -> Option<JsonValue>): (r: seq<string>)
    ensures forall c :: c in r ==> IsIgnoreCode(c)
    ensures !file.Lines? ==> r == []
    ensures file.Lines? && KeptLines(file.lines) == [] ==> r == []
    ensures file.Lines? && KeptLines(file.lines) != [] ==>
              r == ParseAndValidateCodes(jsonLoads(ConfigContent(file.lines))).valid
  {
    match file
    case Absent => []
    case Unreadable => []
    case Lines(lines) =>
      ConfigContentEmpty(lines);
      var content := ConfigContent(lines);
      if content == [] then [] else ParseAndValidateCodes(jsonLoads(content)).valid
  }

  /** Content the parser rejects loads nothing. */
  lemma UndecodableConfigLoadsNothing(lines: seq<string>, jsonLoads: string -> Option<JsonValue>)
    requires jsonLoads(ConfigContent(lines)) == None
    ensures LoadConfig(Lines(lines), jsonLoads) == []
  {
    MalformedConfigLoadsNothing(None);
  }

  /** A file with some content whose `ignore_codes` array holds only
      well-formed codes loads that array whole, entry for entry. */
  lemma WellFormedConfigLoadsWhole(lines: seq<string>, jsonLoads: string -> Option<JsonValue>,
                                   fields: map<string, JsonValue>, items: seq<JsonValue>)
    requires KeptLines(lines) != []
    requires jsonLoads(ConfigContent(lines)) == Some(JObject(fields))
    requires "ignore_codes" in fields && fields["ignore_codes"] == JArray(items)
    requires forall i :: 0 <= i < |items| ==> IsIgnoreCodeEntry(items[i])
    ensures |LoadConfig(Lines(lines), jsonLoads)| == |items|
    ensures forall i :: 0 <= i < |items| ==> JString(LoadConfig(Lines(lines), jsonLoads)[i]) == items[i]
  {
    var parsed := jsonLoads(ConfigContent(lines));
    assert IgnoreCodesField(parsed.value.fields) == JArray(items);
    assert LoadConfig(Lines(lines), jsonLoads) == ValidCodes(items);
    ValidCodesAllWellFormed(items);
  }

  const ExampleComment := "// comment\n"
  const ExampleBody := "{" + "\"ignore_codes\": [\"SC2034\", \"sc2154\", \"SC99\"]" + "}"
  const ExampleCodes := [JString("SC2034"), JString("sc2154"), JString("SC99")]

  lemma ExampleCommentDropped()
    ensures !KeepLine(ExampleComment)
  {
    var comment := ExampleComment;
    assert Strip(comment) == "// comment" by {
      assert LeadingSpaces(comment) == 0;
      assert comment[0..] == comment;
      assert TrailingSpaces(comment[..|comment| - 1]) == 0;
      assert TrailingSpaces(comment) == 1;
    }
  }

  lemma ExampleBodyKept()
    ensures ExampleBody != [] && !IsSpace(ExampleBody[0]) && !IsSpace(ExampleBody[|ExampleBody| - 1])
    ensures KeepLine(ExampleBody)
  {
    var body := ExampleBody;
    assert body[0] == '{' && body[|body| - 1] == '}';
    StripOfSpaceFree(body);
  }

  lemma ExampleContent()
    ensures ConfigContent([ExampleComment, ExampleBody]) == ExampleBody
  {
    var lines := [ExampleComment, ExampleBody];
    var kept := KeptLines(lines);
    assert kept == [ExampleBody] by {
      ExampleCommentDropped();
      ExampleBodyKept();
      assert lines[1..] == [ExampleBody];
      assert KeptLines([ExampleBody]) == [ExampleBody];
    }
    var joined := Concat(kept);
    ConcatSingle(ExampleBody);
    assert Strip(joined) == ExampleBody by {
      ExampleBodyKept();
      StripOfSpaceFree(ExampleBody);
    }
  }

  lemma ExampleValidation()
    ensures ValidateCodes(ExampleCodes) == Validation(["SC2034", "SC99"], Some([JString("sc2154")]))
  {
    var codes := ExampleCodes;
    assert IsIgnoreCode("SC2034") by { assert "SC2034"[2..] == "2034"; }
    assert IsIgnoreCode("SC99") by { assert "SC99"[2..] == "99"; }
    assert !IsIgnoreCode("sc2154") by { assert "sc2154"[0] == 's'; }
    assert ValidCodes(codes) == ["SC2034", "SC99"] by {
      assert codes[1..][1..] == [codes[2]];
      assert ValidCodes([codes[2]]) == ["SC99"];
    }
    assert Dropped(codes) == [codes[1]] by {
      assert codes[1..][1..] == [codes[2]];
      assert Dropped([codes[2]]) == [];
    }
  }

  /** A commented settings file with one lowercase code: the comment line is
      skipped, the lowercase entry is dropped and reported, and the two
      well-formed codes are loaded in order. */
  lemma CommentedConfigExample(jsonLoads: string -> Option<JsonValue>)
    requires jsonLoads(ExampleBody) == Some(JObject(map["ignore_codes" := JArray(ExampleCodes)]))
    ensures LoadConfig(Lines([ExampleComment, ExampleBody]), jsonLoads) == ["SC2034", "SC99"]
    ensures ParseAndValidateCodes(jsonLoads(ConfigContent([ExampleComment, ExampleBody]))).invalidWarning
            == Some([JString("sc2154")])
  {
    var parsed := jsonLoads(ExampleBody);
    assert ParseAndValidateCodes(parsed) == Validation(["SC2034", "SC99"], Some([JString("sc2154")])) by {
      ExampleValidation();
      assert IgnoreCodesField(parsed.value.fields) == JArray(ExampleCodes);
    }
    assert LoadConfig(Lines([ExampleComment, ExampleBody]), jsonLoads) == ParseAndValidateCodes(parsed).valid by {
      ExampleContent();
      assert ExampleBody != [];
    }
    ExampleContent();
  }
}
