/** The contract a row of the session index has to meet. */
module SessionContract {

  /** A JSON value as far as the contract tells them apart. */
  datatype Value = Null | Text(text: string) | Number(n: int) | Texts(items: seq<string>) | OtherValue

  type Row = map<string, Value>

  const ID := "ihar_id"
  const VENDOR := "vendor"
  const VENDOR_ID := "vendor_session_id"
  const PARENT := "parent_ihar_id"
  const UPDATED := "updated_at"

  function Get(row: Row, field: string): Value { if field in row then row[field] else Null }

  predicate Digit(c: char) { '0' <= c <= '9' }

  predicate Hex(c: char) { Digit(c) || 'a' <= c <= 'f' }

  predicate Lower(c: char) { 'a' <= c <= 'z' }

  predicate Uuid(s: string) {
    |s| == 36 && forall i | 0 <= i < 36 :: if i in {8, 13, 18, 23} then s[i] == '-' else Hex(s[i])
  }

  predicate Slug(s: string) {
    s != "" && Lower(s[0]) && forall i | 0 < i < |s| :: Lower(s[i]) || Digit(s[i]) || s[i] == '-'
  }

  /** A point in time: the punctuation of the pattern, and a digit everywhere else. */
  predicate Stamp(s: string) {
    var pattern := "dddd-dd-ddTdd:dd:ddZ";
    |s| == |pattern| && forall i | 0 <= i < |s| :: if pattern[i] == 'd' then Digit(s[i]) else s[i] == pattern[i]
  }

  /** What the contract asks of one field; it knows no others. */
  predicate FieldMeets(field: string, v: Value) {
    match field
    case "schema" => v == Number(1)
    case "ihar_id" => v.Text? && Uuid(v.text)
    case "vendor" => v in {Text("claude"), Text("codex")}
    case "vendor_session_id" => v.Null? || v.Text?
    case "project" => v.Text? && v.text != ""
    case "cwd" => v.Text? && v.text != ""
    case "git_branch" => v.Null? || v.Text?
    case "title" => v.Null? || v.Text?
    case "model" => v.Null? || v.Text?
    case "profile" => v.Text? && Slug(v.text)
    case "started_at" => v.Text? && Stamp(v.text)
    case "updated_at" => v.Text? && Stamp(v.text)
    case "parent_ihar_id" => v.Null? || (v.Text? && Uuid(v.text))
    case "handoff_from" => v.Null? || (v.Text? && Uuid(v.text))
    case "handoff_to" => v.Null? || (v.Text? && Uuid(v.text))
    case "tags" => v.Texts? && forall tag | tag in v.items :: tag != ""
    case "source" => v in {Text("launch"), Text("hook"), Text("vendor"), Text("sqlite")}
    case _ => false
  }

  const REQUIRED := {"schema", ID, VENDOR, "source"}

  /** A row meets it: the fields are known and as they must be, the required ones are there, and
      no session is its own parent. */
  predicate Meets(row: Row) {
    && (forall field | field in row :: FieldMeets(field, row[field]))
    && (forall field | field in REQUIRED :: field in row)
    && Get(row, PARENT) != row[ID]
  }

  // ---------------------------------------------------------------- what that asks

  predicate Between(c: char, low: int, high: int) { low <= c as int <= high }

  /** `s` is spelled as `pattern`: a digit for each `d`, a lower-case hexadecimal one for each `h`. */
  predicate Spelled(s: string, pattern: string) {
    |s| == |pattern| && forall i | 0 <= i < |s| ::
      if pattern[i] == 'd' then Between(s[i], 48, 57)
      else if pattern[i] == 'h' then Between(s[i], 48, 57) || Between(s[i], 97, 102)
      else s[i] == pattern[i]
  }

  lemma SpellingMeans(s: string)
    ensures Uuid(s) <==> Spelled(s, "hhhhhhhh-hhhh-hhhh-hhhh-hhhhhhhhhhhh")
    ensures Stamp(s) <==> Spelled(s, "dddd-dd-ddTdd:dd:ddZ")
    ensures Slug(s) <==>
              && s != "" && Between(s[0], 97, 122)
              && forall i | 1 <= i < |s| :: Between(s[i], 97, 122) || Between(s[i], 48, 57) || s[i] as int == 45
  {
    var hyphens := "hhhhhhhh-hhhh-hhhh-hhhh-hhhhhhhhhhhh";
    assert |hyphens| == 36;
    assert forall i | 0 <= i < 36 :: hyphens[i] == if i in {8, 13, 18, 23} then '-' else 'h';
  }

  /** Ids are spelled as UUIDs; another session's may be null. */
  lemma IdsMean(v: Value)
    ensures FieldMeets("ihar_id", v) <==> v.Text? && Spelled(v.text, "hhhhhhhh-hhhh-hhhh-hhhh-hhhhhhhhhhhh")
    ensures FieldMeets("parent_ihar_id", v) <==> v == Null || FieldMeets("ihar_id", v)
    ensures FieldMeets("handoff_from", v) <==> v == Null || FieldMeets("ihar_id", v)
    ensures FieldMeets("handoff_to", v) <==> v == Null || FieldMeets("ihar_id", v)
  {
    if v.Text? { SpellingMeans(v.text); }
  }

  /** Some texts may be null, some may not be empty, and times are spelled out. */
  lemma TextsMean(v: Value)
    ensures forall f | f in ["vendor_session_id", "git_branch", "title", "model"] ::
              FieldMeets(f, v) <==> v == Null || exists t :: v == Text(t)
    ensures forall f | f in ["project", "cwd"] :: FieldMeets(f, v) <==> v.Text? && |v.text| > 0
    ensures forall f | f in ["started_at", "updated_at"] ::
              FieldMeets(f, v) <==> v.Text? && Spelled(v.text, "dddd-dd-ddTdd:dd:ddZ")
  {
    if v.Text? {
      SpellingMeans(v.text);
      assert v == Text(v.text);
    }
  }

  /** No other fields, these four at least, and no session its own parent. */
  lemma MeetsIff(row: Row)
    ensures Meets(row) <==>
              && row.Keys <= {"schema", "ihar_id", "vendor", "vendor_session_id", "project", "cwd", "git_branch",
                 "title",
                              "model", "profile", "started_at", "updated_at", "parent_ihar_id", "handoff_from",
                              "handoff_to", "tags", "source"}
              && (forall f | f in row :: FieldMeets(f, row[f]))
              && "schema" in row && "ihar_id" in row && "vendor" in row && "source" in row
              && ("parent_ihar_id" in row ==> row["parent_ihar_id"] != row["ihar_id"])
  {
    if "ihar_id" in row { IdsMean(row["ihar_id"]); }
  }
}
