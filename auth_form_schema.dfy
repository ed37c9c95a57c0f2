/**
 The validation schema of the authentication form: `authFormSchema(type)`
 builds a zod object schema over the fields name, email, username and
 password. Under the type "sign-in" name and email are optional strings;
 under any other type they are required, name with a length of at least 3 and
 email in e-mail format. Username (length at least 3) and password (length at
 least 8) are
 required under every type.

 Whether a string is an e-mail address is zod's business: it is a parameter.
 A string's length is JavaScript's `.length`, the number of its UTF-16 code
 units: a character outside the Basic Multilingual Plane counts twice.
 */
module AuthFormSchema {

  const SignIn: string := "sign-in"

  /** A field of the submitted record: absent (undefined), a string, or a value of another type. */
  datatype FieldValue = Absent | Text(text: string) | NotText

  datatype AuthRecord = AuthRecord(name: FieldValue, email: FieldValue, username: FieldValue, password: FieldValue)

  datatype FieldName = Name | Email | Username | Password

  /** The number of UTF-16 code units that encode one character: two for a surrogate pair. */
  function CodeUnits(c: char): nat
  {
    if c as int >= 0x1_0000 then 2 else 1
  }

  /** JavaScript's `s.length`. */
  function Utf16Length(s: string): (r: nat)
    ensures |s| <= r <= 2 * |s|
    ensures (forall k :: 0 <= k < |s| ==> s[k] as int < 0x1_0000) ==> r == |s|
  {
    if s == [] then 0 else CodeUnits(s[0]) + Utf16Length(s[1..])
  }

  /** Two emoji are four code units long. */
  lemma EmojiLength()
    ensures |"\U{1F600}\U{1F600}"| == 2
    ensures Utf16Length("\U{1F600}\U{1F600}") == 4
  {
    var s := "\U{1F600}\U{1F600}";
    assert s[1..][1..] == [];
  }

  /** The zod rules the schema uses: `z.string().optional()`, `z.string().min(k)` and `z.email()`. */
  datatype Rule = OptionalString | MinLength(min: nat) | EmailFormat

  /** The issues zod reports: `invalid_type`, `too_small` and `invalid_format`. */
  datatype IssueKind = InvalidType | TooSmall(minimum: nat) | InvalidFormat

  datatype Issue = Issue(field: FieldName, kind: IssueKind)

  datatype Option<T> = None | Some(value: T)

  /** `authFormSchema(type)`: the rule for each field, in the schema's key order. */
  function Schema(formType: string): seq<(FieldName, Rule)>
  {
    var signIn := formType == SignIn;
    [ (Name, if signIn then OptionalString else MinLength(3)),
      (Email, if signIn then OptionalString else EmailFormat),
      (Username, MinLength(3)),
      (Password, MinLength(8)) ]
  }

  /** The issue one rule raises against one value, if any. */
  function Check(rule: Rule, value: FieldValue, isEmail: string -> bool): (r: Option<IssueKind>)
    ensures value.NotText? ==> r == Some(InvalidType)
    ensures rule.OptionalString? ==> (r.None? <==> !value.NotText?)
    ensures rule.MinLength? ==> (r.None? <==> value.Text? && Utf16Length(value.text) >= rule.min)
    ensures rule.EmailFormat? ==> (r.None? <==> value.Text? && isEmail(value.text))
    ensures r == Some(InvalidType) <==> (value.NotText? || (!rule.OptionalString? && value.Absent?))
    ensures rule.MinLength? && value.Text? && Utf16Length(value.text) < rule.min ==> r == Some(TooSmall(rule.min))
    ensures rule.EmailFormat? && value.Text? && !isEmail(value.text) ==> r == Some(InvalidFormat)
  {
    match rule
    case OptionalString =>
      if value.NotText? then Some(InvalidType) else None
    case MinLength(min) =>
      if !value.Text? then Some(InvalidType)
      else if Utf16Length(value.text) < min then Some(TooSmall(min))
      else None
    case EmailFormat =>
      if !value.Text? then Some(InvalidType)
      else if !isEmail(value.text) then Some(InvalidFormat)
      else None
  }

  function FieldOf(rec: AuthRecord, field: FieldName): FieldValue
  {
    match field
    case Name => rec.name
    case Email => rec.email
    case Username => rec.username
    case Password => rec.password
  }

  /** The issue one field rule raises against a record, naming that field. */
  function IssueOf(rule: (FieldName, Rule), rec: AuthRecord, isEmail: string -> bool): (r: Option<Issue>)
    ensures r.None? <==> Check(rule.1, FieldOf(rec, rule.0), isEmail).None?
    ensures r.Some? ==> r.value.field == rule.0 && Some(r.value.kind) == Check(rule.1, FieldOf(rec, rule.0), isEmail)
  {
    match Check(rule.1, FieldOf(rec, rule.0), isEmail)
    case None => None
    case Some(kind) => Some(Issue(rule.0, kind))
  }

  /** The issues of a record against a list of field rules, in field order. */
  function IssuesAgainst(rules: seq<(FieldName, Rule)>, rec: AuthRecord, isEmail: string -> bool): (r: seq<Issue>)
    ensures |r| <= |rules|
    ensures r == [] <==> forall k :: 0 <= k < |rules| ==> IssueOf(rules[k], rec, isEmail).None?
  {
    if rules == [] then []
    else
      var rest := IssuesAgainst(rules[1..], rec, isEmail);
      match IssueOf(rules[0], rec, isEmail)
      case None => rest
      case Some(issue) => [issue] + rest
  }

  /** The issues of consecutive rule lists come one list after the other. */
  lemma {:induction false} IssuesAgainstConcat(a: seq<(FieldName, Rule)>, b: seq<(FieldName, Rule)>,
                                               rec: AuthRecord, isEmail: string -> bool)
    ensures IssuesAgainst(a + b, rec, isEmail) == IssuesAgainst(a, rec, isEmail) + IssuesAgainst(b, rec, isEmail)
  {
    if a == [] {
      assert a + b == b;
    } else {
      assert (a + b)[0] == a[0];
      assert (a + b)[1..] == a[1..] + b;
      IssuesAgainstConcat(a[1..], b, rec, isEmail);
    }
  }

  /** Every issue reported is raised by one of the rules, against the field that rule names:
      issue i comes from rule k. */
  lemma {:induction false} IssueSource(rules: seq<(FieldName, Rule)>, rec: AuthRecord, isEmail: string -> bool, i: nat)
    returns (k: nat)
    requires i < |IssuesAgainst(rules, rec, isEmail)|
    ensures k < |rules| && IssueOf(rules[k], rec, isEmail) == Some(IssuesAgainst(rules, rec, isEmail)[i])
  {
    var r := IssuesAgainst(rules, rec, isEmail);
    var rest := IssuesAgainst(rules[1..], rec, isEmail);
    var first := IssueOf(rules[0], rec, isEmail);
    assert r == if first.Some? then [first.value] + rest else rest;
    if first.Some? && i == 0 {
      k := 0;
    } else {
      var i' := if first.Some? then i - 1 else i;
      assert r[i] == rest[i'];
      var k' := IssueSource(rules[1..], rec, isEmail, i');
      assert rules[1..][k'] == rules[k' + 1];
      k := k' + 1;
    }
  }

  /** Every rule that fails contributes its issue. */
  lemma {:induction false} IssuesAgainstComplete(rules: seq<(FieldName, Rule)>, rec: AuthRecord, isEmail: string -> bool)
    ensures forall k :: 0 <= k < |rules| && IssueOf(rules[k], rec, isEmail).Some? ==>
      IssueOf(rules[k], rec, isEmail).value in IssuesAgainst(rules, rec, isEmail)
  {
    if rules != [] {
      IssuesAgainstComplete(rules[1..], rec, isEmail);
      forall k | 0 <= k < |rules| && IssueOf(rules[k], rec, isEmail).Some?
        ensures IssueOf(rules[k], rec, isEmail).value in IssuesAgainst(rules, rec, isEmail)
      {
        if k > 0 {
          assert rules[1..][k - 1] == rules[k];
        }
      }
    }
  }

  predicate DistinctFields(rules: seq<(FieldName, Rule)>)
  {
    forall i, j :: 0 <= i < j < |rules| ==> rules[i].0 != rules[j].0
  }

  predicate OnePerField(issues: seq<Issue>)
  {
    forall i, j :: 0 <= i < j < |issues| ==> issues[i].field != issues[j].field
  }

  /** When the rules name distinct fields, no field gets two issues. */
  lemma {:induction false} IssuesAgainstOnePerField(rules: seq<(FieldName, Rule)>, rec: AuthRecord, isEmail: string -> bool)
    requires DistinctFields(rules)
    ensures OnePerField(IssuesAgainst(rules, rec, isEmail))
  {
    if rules != [] {
      var r := IssuesAgainst(rules, rec, isEmail);
      var rest := IssuesAgainst(rules[1..], rec, isEmail);
      var first := IssueOf(rules[0], rec, isEmail);
      assert r == if first.Some? then [first.value] + rest else rest;
      assert DistinctFields(rules[1..]) by {
        forall i, j | 0 <= i < j < |rules[1..]| ensures rules[1..][i].0 != rules[1..][j].0 {
          assert rules[1..][i] == rules[i + 1] && rules[1..][j] == rules[j + 1];
        }
      }
      IssuesAgainstOnePerField(rules[1..], rec, isEmail);
      if first.Some? {
        forall i, j | 0 <= i < j < |r| ensures r[i].field != r[j].field {
          assert r[j] == rest[j - 1];
          if i == 0 {
            var k := IssueSource(rules[1..], rec, isEmail, j - 1);
            assert rules[1..][k] == rules[k + 1];
          } else {
            assert r[i] == rest[i - 1];
          }
        }
      }
    }
  }

  /** What `authFormSchema(type).safeParse(rec)` reports: no issue means the record is accepted. */
  function Issues(formType: string, rec: AuthRecord, isEmail: string -> bool): seq<Issue>
  {
    IssuesAgainst(Schema(formType), rec, isEmail)
  }

  /** The schema reports at most one issue per field. */
  lemma IssuesOnePerField(formType: string, rec: AuthRecord, isEmail: string -> bool)
    ensures OnePerField(Issues(formType, rec, isEmail))
  {
    assert DistinctFields(Schema(formType));
    IssuesAgainstOnePerField(Schema(formType), rec, isEmail);
  }

  /** An empty sign-up form gets one `invalid_type` issue per field, in key order. */
  lemma EmptySignUpIssues(isEmail: string -> bool)
    ensures Issues("sign-up", AuthRecord(Absent, Absent, Absent, Absent), isEmail) ==
      [Issue(Name, InvalidType), Issue(Email, InvalidType), Issue(Username, InvalidType), Issue(Password, InvalidType)]
  {
    var rules := Schema("sign-up");
    var rec := AuthRecord(Absent, Absent, Absent, Absent);
    assert rules == [rules[0]] + ([rules[1]] + ([rules[2]] + [rules[3]]));
    IssuesAgainstConcat([rules[0]], [rules[1]] + ([rules[2]] + [rules[3]]), rec, isEmail);
    IssuesAgainstConcat([rules[1]], [rules[2]] + [rules[3]], rec, isEmail);
    IssuesAgainstConcat([rules[2]], [rules[3]], rec, isEmail);
  }

  predicate Accepts(formType: string, rec: AuthRecord, isEmail: string -> bool)
  {
    Issues(formType, rec, isEmail) == []
  }

  predicate IsTextOfAtLeast(value: FieldValue, min: nat)
  {
    value.Text? && Utf16Length(value.text) >= min
  }

  /** The schema's rules field by field, written out directly. */
  predicate AcceptsDirectly(formType: string, rec: AuthRecord, isEmail: string -> bool)
  {
    && IsTextOfAtLeast(rec.username, 3)
    && IsTextOfAtLeast(rec.password, 8)
    && if formType == SignIn then
         && !rec.name.NotText?
         && !rec.email.NotText?
       else
         && IsTextOfAtLeast(rec.name, 3)
         && rec.email.Text? && isEmail(rec.email.text)
  }

  /** The schema accepts exactly the records the direct reading describes. */
  lemma AcceptsCharacterized(formType: string, rec: AuthRecord, isEmail: string -> bool)
    ensures Accepts(formType, rec, isEmail) <==> AcceptsDirectly(formType, rec, isEmail)
  {
    var rules := Schema(formType);
    assert Accepts(formType, rec, isEmail) <==>
      forall k :: 0 <= k < |rules| ==> Check(rules[k].1, FieldOf(rec, rules[k].0), isEmail).None?;
    assert Accepts(formType, rec, isEmail) <==>
      && Check(rules[0].1, rec.name, isEmail).None?
      && Check(rules[1].1, rec.email, isEmail).None?
      && Check(rules[2].1, rec.username, isEmail).None?
      && Check(rules[3].1, rec.password, isEmail).None?;
  }

  /** Username and password are required with their minimum lengths under every form type. */
  lemma UsernameAndPasswordRequired(formType: string, rec: AuthRecord, isEmail: string -> bool)
    requires Accepts(formType, rec, isEmail)
    ensures rec.username.Text? && Utf16Length(rec.username.text) >= 3
    ensures rec.password.Text? && Utf16Length(rec.password.text) >= 8
  {
    AcceptsCharacterized(formType, rec, isEmail);
  }

  /** Signing in, name and email may be absent or any string, the empty string included. */
  lemma SignInNameAndEmailOptional(rec: AuthRecord, isEmail: string -> bool, name: FieldValue, email: FieldValue)
    requires Accepts(SignIn, rec, isEmail)
    requires !name.NotText? && !email.NotText?
    ensures Accepts(SignIn, rec.(name := name, email := email), isEmail)
  {
    AcceptsCharacterized(SignIn, rec, isEmail);
    AcceptsCharacterized(SignIn, rec.(name := name, email := email), isEmail);
  }

  /** Under any other type, a name is required with a JavaScript length of at least 3 and an e-mail address is required. */
  lemma OtherTypesRequireNameAndEmail(formType: string, rec: AuthRecord, isEmail: string -> bool)
    requires formType != SignIn && Accepts(formType, rec, isEmail)
    ensures rec.name.Text? && Utf16Length(rec.name.text) >= 3
    ensures rec.email.Text? && isEmail(rec.email.text)
  {
    AcceptsCharacterized(formType, rec, isEmail);
  }

  /** The type matters only through being "sign-in" or not. */
  lemma OnlySignInMatters(t1: string, t2: string)
    requires (t1 == SignIn) == (t2 == SignIn)
    ensures Schema(t1) == Schema(t2)
  {
  }

  /** A username of two emoji is four code units long, so signing in accepts it. */
  lemma EmojiUsernameAccepted(isEmail: string -> bool)
    ensures Accepts(SignIn, AuthRecord(Absent, Absent, Text("\U{1F600}\U{1F600}"), Text("password")), isEmail)
  {
    EmojiLength();
    var rec := AuthRecord(Absent, Absent, Text("\U{1F600}\U{1F600}"), Text("password"));
    AcceptsCharacterized(SignIn, rec, isEmail);
  }

  /** Signing in is the most permissive: whatever another type accepts, "sign-in" accepts too. */
  lemma SignInAcceptsMore(formType: string, rec: AuthRecord, isEmail: string -> bool)
    requires Accepts(formType, rec, isEmail)
    ensures Accepts(SignIn, rec, isEmail)
  {
    AcceptsCharacterized(formType, rec, isEmail);
    AcceptsCharacterized(SignIn, rec, isEmail);
  }
}
