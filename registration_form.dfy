/**
 * The registration form: its state (`formData`, `isLoading`), the two change
 * handlers and `handleSubmit`, which validates, builds the `team_members`
 * list, sends one insert and on success navigates to `/payment`.
 */
module RegistrationForm {
  import opened Wrappers
  import opened JsText
  import opened Backend
  import opened Navigation

  /** The component's `formData`; `teamMembers` holds the three member slots. */
  datatype FormData = FormData(
    teamName: string,
    teamLeaderName: string,
    teamLeaderEmail: string,
    teamLeaderPhone: string,
    teamSize: string,
    institution: string,
    state: string,
    githubProfile: string,
    linkedinProfile: string,
    teamMembers: seq<string>)

  const InitialForm := FormData("", "", "", "", "2", "", "", "", "", ["", "", ""])

  /** The `name` attributes of the form's text inputs and its team-size select. */
  datatype Field =
    | TeamName | TeamLeaderName | TeamLeaderEmail | TeamLeaderPhone | TeamSize
    | Institution | State | GithubProfile | LinkedinProfile

  function FieldValue(f: FormData, field: Field): string {
    match field
    case TeamName => f.teamName
    case TeamLeaderName => f.teamLeaderName
    case TeamLeaderEmail => f.teamLeaderEmail
    case TeamLeaderPhone => f.teamLeaderPhone
    case TeamSize => f.teamSize
    case Institution => f.institution
    case State => f.state
    case GithubProfile => f.githubProfile
    case LinkedinProfile => f.linkedinProfile
  }

  /** `{...prev, [name]: value}`: the named field takes the value, nothing else moves. */
  function WithField(f: FormData, field: Field, value: string): (r: FormData)
    ensures FieldValue(r, field) == value
    ensures forall g :: g != field ==> FieldValue(r, g) == FieldValue(f, g)
    ensures r.teamMembers == f.teamMembers
  {
    match field
    case TeamName => f.(teamName := value)
    case TeamLeaderName => f.(teamLeaderName := value)
    case TeamLeaderEmail => f.(teamLeaderEmail := value)
    case TeamLeaderPhone => f.(teamLeaderPhone := value)
    case TeamSize => f.(teamSize := value)
    case Institution => f.(institution := value)
    case State => f.(state := value)
    case GithubProfile => f.(githubProfile := value)
    case LinkedinProfile => f.(linkedinProfile := value)
  }

  /** `members.map((m, i) => i === index ? value : m)`: only slot `index` changes, and only if it exists. */
  function WithMember(members: seq<string>, index: int, value: string): (r: seq<string>)
    ensures |r| == |members|
    ensures 0 <= index < |members| ==> r[index] == value
    ensures forall i :: 0 <= i < |members| && i != index ==> r[i] == members[i]
  {
    seq(|members|, i requires 0 <= i < |members| => if i == index then value else members[i])
  }

  /** `members.filter(m => m.trim() !== '')`. */
  function ActiveMembers(members: seq<string>): (r: seq<string>)
    ensures |r| <= |members|
  {
    if members == [] then []
    else (if IsBlank(members[0]) then [] else [members[0]]) + ActiveMembers(members[1..])
  }

  /** The filter keeps exactly the names that are not blank: whitespace-only names do not count. */
  lemma {:induction false} ActiveMembersExactly(members: seq<string>)
    ensures forall m :: m in ActiveMembers(members) <==> m in members && !IsBlank(m)
  {
    if members != [] {
      ActiveMembersExactly(members[1..]);
      assert forall m :: m in members <==> m == members[0] || m in members[1..];
    }
  }

  /** The filter keeps the original order: it distributes over concatenation. */
  lemma {:induction false} ActiveMembersConcat(a: seq<string>, b: seq<string>)
    ensures ActiveMembers(a + b) == ActiveMembers(a) + ActiveMembers(b)
  {
    if a != [] {
      var head := if IsBlank(a[0]) then [] else [a[0]];
      assert (a + b)[0] == a[0];
      assert (a + b)[1..] == a[1..] + b;
      assert ActiveMembers(a + b) == head + ActiveMembers(a[1..] + b);
      ActiveMembersConcat(a[1..], b);
      assert ActiveMembers(a) == head + ActiveMembers(a[1..]);
    } else {
      assert a + b == b;
    }
  }

  /** `Member ${k}`. */
  function MemberLabel(k: nat): string {
    "Member " + NatToDecimal(k)
  }

  /** Two members never share a position label. */
  lemma MemberLabelsDistinct(j: nat, k: nat)
    requires MemberLabel(j) == MemberLabel(k)
    ensures j == k
  {
    var p := "Member ";
    assert NatToDecimal(j) == MemberLabel(j)[|p|..];
    assert NatToDecimal(k) == MemberLabel(k)[|p|..];
    NatToDecimalInjective(j, k);
  }

  /** `active.slice(0, count).map((name, i) => ({name: name.trim(), position: `Member ${i + 1}`}))`. */
  function TeamMembersPayload(active: seq<string>, count: nat): (r: seq<TeamMember>)
    requires count <= |active|
    ensures |r| == count
    ensures forall k :: 0 <= k < count ==> r[k].name == Trim(active[k]) && r[k].position == MemberLabel(k + 1)
  {
    seq(count, k requires 0 <= k < count => TeamMember(Trim(active[k]), MemberLabel(k + 1)))
  }

  /** Names that are not blank stay not blank in the payload. */
  lemma PayloadKeepsNonBlank(active: seq<string>, count: nat)
    requires count <= |active|
    ensures forall k :: 0 <= k < count && !IsBlank(active[k]) ==> !IsBlank(TeamMembersPayload(active, count)[k].name)
  {
    var r := TeamMembersPayload(active, count);
    forall k | 0 <= k < count && !IsBlank(active[k])
      ensures !IsBlank(r[k].name)
    {
      assert r[k].name == Trim(active[k]);
      TrimKeepsNonBlank(active[k]);
    }
  }

  /** The team size `parseInt(teamSize.replace(/[^\d]/g, ''), 10)` reads: NaN when there is no ASCII digit. */
  function ParsedTeamSize(f: FormData): (n: JsNumber)
    ensures n.NaN? <==> forall i :: 0 <= i < |f.teamSize| ==> !IsDigit(f.teamSize[i])
    ensures n.Int? ==> n.n >= 0
  {
    ParseDigits(AsciiDigits(f.teamSize))
  }

  /** `!x` holds of a string only when it is empty, so whitespace passes this check. */
  predicate HasRequiredFields(f: FormData) {
    f.teamName != [] && f.teamLeaderName != [] && f.teamLeaderEmail != [] && f.teamLeaderPhone != []
  }

  predicate SizeInRange(n: JsNumber) {
    n.Int? && 2 <= n.n <= 4
  }

  datatype ValidationError = MissingRequiredField | TeamSizeOutOfRange | TooFewMembers(expected: int)

  /** What validation hands to the insert: the team size and the `team_members` list. */
  datatype Checked = Checked(teamSize: int, members: seq<TeamMember>)

  /**
   * The checks of `handleSubmit`, in the source's order, with a team size
   * that has no digits rejected like any other size outside 2..4.
   */
  function Validate(f: FormData): (r: Result<Checked, ValidationError>)
    ensures r.Ok? <==>
      HasRequiredFields(f) && SizeInRange(ParsedTeamSize(f))
      && |ActiveMembers(f.teamMembers)| >= ParsedTeamSize(f).n - 1
    ensures !HasRequiredFields(f) ==> r == Err(MissingRequiredField)
    ensures HasRequiredFields(f) && !SizeInRange(ParsedTeamSize(f)) ==> r == Err(TeamSizeOutOfRange)
    ensures (HasRequiredFields(f) && SizeInRange(ParsedTeamSize(f))
             && |ActiveMembers(f.teamMembers)| < ParsedTeamSize(f).n - 1) ==>
      r == Err(TooFewMembers(ParsedTeamSize(f).n - 1))
    ensures r.Ok? ==>
      ParsedTeamSize(f) == Int(r.value.teamSize) && 2 <= r.value.teamSize <= 4
      && r.value.members == TeamMembersPayload(ActiveMembers(f.teamMembers), r.value.teamSize - 1)
  {
    if !HasRequiredFields(f) then Err(MissingRequiredField)
    else
      var active := ActiveMembers(f.teamMembers);
      var parsed := ParsedTeamSize(f);
      if parsed.NaN? || parsed.n < 2 || parsed.n > 4 then Err(TeamSizeOutOfRange)
      else
        var expected := parsed.n - 1;
        if |active| < expected then Err(TooFewMembers(expected))
        else
          Ok(Checked(parsed.n, TeamMembersPayload(active, expected)))
  }

  /** A non-blank name stays non-blank once trimmed. */
  lemma TrimKeepsNonBlank(name: string)
    requires !IsBlank(name)
    ensures !IsBlank(Trim(name))
  {
    var t := Trim(name);
    assert !IsWhitespace(t[0]);
    assert !AllWhitespace(t);
  }

  /** The row `handleSubmit` inserts. */
  function InsertRow(f: FormData, c: Checked, now: string): Registration {
    Registration(
      teamName := f.teamName,
      teamLeaderName := f.teamLeaderName,
      name := f.teamLeaderName,
      teamLeaderEmail := f.teamLeaderEmail,
      teamLeaderPhone := f.teamLeaderPhone,
      teamSize := c.teamSize,
      institution := f.institution,
      state := f.state,
      githubProfile := f.githubProfile,
      linkedinProfile := f.linkedinProfile,
      teamMembers := c.members,
      registrationDate := now,
      paymentScreenshot := None)
  }

  /** Every row the form inserts satisfies the registration invariants and copies the form's leader. */
  lemma InsertedRowWellFormed(f: FormData, now: string)
    requires Validate(f).Ok?
    ensures WellFormed(InsertRow(f, Validate(f).value, now))
    ensures InsertRow(f, Validate(f).value, now).paymentScreenshot == None
    ensures InsertRow(f, Validate(f).value, now).teamLeaderName == f.teamLeaderName
    ensures Int(InsertRow(f, Validate(f).value, now).teamSize) == ParsedTeamSize(f)
  {
    ValidatedMembers(f);
  }

  /**
   * The member list has one entry per member besides the leader: the first
   * `size - 1` non-blank names in slot order, trimmed and still non-blank,
   * labelled "Member 1", "Member 2", ...; later names are dropped.
   */
  lemma ValidatedMembers(f: FormData)
    requires Validate(f).Ok?
    ensures var c := Validate(f).value;
      |c.members| == c.teamSize - 1 <= |ActiveMembers(f.teamMembers)|
      && forall k :: 0 <= k < |c.members| ==>
        c.members[k] == TeamMember(Trim(ActiveMembers(f.teamMembers)[k]), MemberLabel(k + 1))
        && !IsBlank(c.members[k].name)
  {
    var active := ActiveMembers(f.teamMembers);
    var c := Validate(f).value;
    ActiveMembersExactly(f.teamMembers);
    assert forall k :: 0 <= k < |active| ==> active[k] in active;
    PayloadKeepsNonBlank(active, c.teamSize - 1);
  }

  datatype SubmitOutcome = Invalid(error: ValidationError) | StoreFailed(message: string) | Registered(nav: PaymentNav)

  /** What a submit of `f` ends in, given the store's answer to the insert (unused when validation fails). */
  function Submission(f: FormData, answer: InsertReply): (o: SubmitOutcome)
    ensures o.Invalid? <==> Validate(f).Err?
    ensures o.Invalid? ==> o.error == Validate(f).error
    ensures o.Registered? <==> Validate(f).Ok? && answer.Returned?
    ensures o.Registered? ==> o.nav == PaymentNav(answer.id, f.teamName, f.teamLeaderName, f.teamLeaderEmail)
  {
    match Validate(f)
    case Err(e) => Invalid(e)
    case Ok(_) =>
      match answer
      case Returned(id) => Registered(PaymentNav(id, f.teamName, f.teamLeaderName, f.teamLeaderEmail))
      case InsertError(message) => StoreFailed("Registration failed: " + message)
      case NoData => StoreFailed("Registration failed: No data returned")
  }

  class RegistrationPage {
    var formData: FormData
    var isLoading: bool
    /** The `navigate('/payment', {state})` call, once made. */
    var navigation: Option<PaymentNav>

    constructor ()
      ensures formData == InitialForm && !isLoading && navigation == None
    {
      formData, isLoading, navigation := InitialForm, false, None;
    }

    method HandleInputChange(field: Field, value: string)
      modifies this`formData
      ensures formData == WithField(old(formData), field, value)
    {
      formData := WithField(formData, field, value);
    }

    method HandleMemberChange(index: int, value: string)
      modifies this`formData
      ensures formData == old(formData).(teamMembers := WithMember(old(formData).teamMembers, index, value))
    {
      formData := formData.(teamMembers := WithMember(formData.teamMembers, index, value));
    }

    /**
     * `handleSubmit`: loading while it runs, no insert unless validation
     * passes, exactly one insert request when it does, navigation only after
     * the store returned a row.
     */
    method HandleSubmit(store: Store, reply: InsertReply, now: string) returns (outcome: SubmitOutcome)
      modifies this`isLoading, this`navigation, store`registrations, store`inserts
      ensures !isLoading
      ensures outcome == Submission(formData, InsertAnswer(old(store.registrations), reply))
      ensures Validate(formData).Err? ==>
        store.inserts == old(store.inserts) && store.registrations == old(store.registrations)
      ensures Validate(formData).Ok? ==>
        var row := InsertRow(formData, Validate(formData).value, now);
        store.inserts == old(store.inserts) + [row]
        && store.registrations == (if outcome.Registered? then old(store.registrations)[outcome.nav.id := row]
                                   else old(store.registrations))
      ensures navigation == if outcome.Registered? then Some(outcome.nav) else old(navigation)
    {
      isLoading := true;
      var checked := Validate(formData);
      if checked.Err? {
        outcome := Invalid(checked.error);
      } else {
        var row := InsertRow(formData, checked.value, now);
        var answer := store.Insert(row, reply);
        match answer {
          case Returned(id) =>
            var nav := PaymentNav(id, formData.teamName, formData.teamLeaderName, formData.teamLeaderEmail);
            navigation := Some(nav);
            outcome := Registered(nav);
          case InsertError(message) =>
            outcome := StoreFailed("Registration failed: " + message);
          case NoData =>
            outcome := StoreFailed("Registration failed: No data returned");
        }
      }
      isLoading := false;
    }
  }

  // The checks as the source writes them, where the team size is a JavaScript number that may be NaN.

  /** `a < b` with a JavaScript number on the left: false when it is NaN. */
  predicate JsLess(a: JsNumber, b: int) {
    a.Int? && a.n < b
  }

  /** `a > b`: false when `a` is NaN. */
  predicate JsGreater(a: JsNumber, b: int) {
    a.Int? && a.n > b
  }

  /** The end index `slice(0, end)` uses on a list of `len` items: NaN reads as 0, a negative end counts from the back. */
  function SliceEnd(end: JsNumber, len: nat): (r: nat)
    ensures r <= len
  {
    match end
    case NaN => 0
    case Int(e) => if e < 0 then (if len + e < 0 then 0 else len + e) else if e > len then len else e
  }

  datatype AsWritten = AsWritten(teamSize: JsNumber, members: seq<TeamMember>)

  /** Lines 45-74 of the form as written: a NaN team size passes both the range and the member-count check. */
  function CheckAsWritten(f: FormData): (r: Result<AsWritten, ValidationError>)
    ensures r.Ok? ==> HasRequiredFields(f)
    ensures r.Ok? && r.value.teamSize.Int? ==> 2 <= r.value.teamSize.n <= 4 && |r.value.members| == r.value.teamSize.n - 1
    ensures r.Ok? ==> |r.value.members| <= |ActiveMembers(f.teamMembers)|
  {
    if !HasRequiredFields(f) then Err(MissingRequiredField)
    else
      var active := ActiveMembers(f.teamMembers);
      var parsed := ParsedTeamSize(f);
      if JsLess(parsed, 2) || JsGreater(parsed, 4) then Err(TeamSizeOutOfRange)
      else
        var expected := if parsed.NaN? then NaN else Int(parsed.n - 1);
        if expected.Int? && |active| < expected.n then Err(TooFewMembers(expected.n))
        else Ok(AsWritten(parsed, TeamMembersPayload(active, SliceEnd(expected, |active|))))
  }

  /**
   * A team size with no ASCII digit (the empty string, "two") gets through as
   * written: the insert is sent with a NaN size and no members, where the
   * corrected check refuses it.
   */
  lemma NoDigitTeamSizeGetsThrough(f: FormData)
    requires HasRequiredFields(f)
    requires forall i :: 0 <= i < |f.teamSize| ==> !IsDigit(f.teamSize[i])
    ensures CheckAsWritten(f) == Ok(AsWritten(NaN, []))
    ensures Validate(f) == Err(TeamSizeOutOfRange)
  {
    assert AsciiDigits(f.teamSize) == [];
    assert ParsedTeamSize(f) == NaN;
    assert TeamMembersPayload(ActiveMembers(f.teamMembers), 0) == [];
  }

  /** Whenever the team size has an ASCII digit, the checks as written and the corrected ones agree. */
  lemma AsWrittenAgreesWhenSizeHasDigit(f: FormData)
    requires AsciiDigits(f.teamSize) != []
    ensures CheckAsWritten(f).Ok? <==> Validate(f).Ok?
    ensures Validate(f).Ok? ==>
      CheckAsWritten(f).value == AsWritten(Int(Validate(f).value.teamSize), Validate(f).value.members)
    ensures Validate(f).Err? ==> CheckAsWritten(f).error == Validate(f).error
  {
    var parsed := ParsedTeamSize(f);
    assert parsed.Int?;
    var active := ActiveMembers(f.teamMembers);
    if !HasRequiredFields(f) {
    } else if !SizeInRange(parsed) {
      assert JsLess(parsed, 2) || JsGreater(parsed, 4);
    } else if |active| < parsed.n - 1 {
      assert CheckAsWritten(f) == Err(TooFewMembers(parsed.n - 1));
    } else {
      assert SliceEnd(Int(parsed.n - 1), |active|) == parsed.n - 1;
      assert CheckAsWritten(f) == Ok(AsWritten(parsed, TeamMembersPayload(active, parsed.n - 1)));
    }
  }
}

/** The end-to-end registration example, checked against the model. */
module RegistrationExample {
  import opened JsText
  import opened Backend
  import opened RegistrationForm

  /** A name typed without surrounding whitespace. */
  predicate Plain(name: string) {
    name != [] && !IsWhitespace(name[0]) && !IsWhitespace(name[|name| - 1])
  }

  /**
   * The end-to-end example: a three-person team whose member slots hold two
   * plainly typed names and an empty third slot is accepted, with those two
   * names as "Member 1" and "Member 2".
   */
  lemma ThreePersonTeamExample(f: FormData, b: string, c: string)
    requires HasRequiredFields(f) && f.teamSize == "3" && f.teamMembers == [b, c, ""]
    requires Plain(b) && Plain(c)
    ensures Validate(f).Ok? && Validate(f).value.teamSize == 3
    ensures Validate(f).value.members == [TeamMember(b, "Member 1"), TeamMember(c, "Member 2")]
  {
    ExampleSize(f);
    ExampleMembers(b, c);
    ExamplePayload(b, c);
    var r := Validate(f);
    assert r.Ok?;
    assert r.value.teamSize == 3;
    assert r.value.members == TeamMembersPayload([b, c], 2);
  }

  lemma ExampleSize(f: FormData)
    requires f.teamSize == "3"
    ensures ParsedTeamSize(f) == Int(3)
  {
    assert AsciiDigits("3") == "3";
    assert DecimalValue("3") == 3;
  }

  lemma ExampleMembers(b: string, c: string)
    requires Plain(b) && Plain(c)
    ensures ActiveMembers([b, c, ""]) == [b, c]
  {
    TrimKeepsPlainText(b);
    TrimKeepsPlainText(c);
    ActiveMembersConcat([b], [c, ""]);
    ActiveMembersConcat([c], [""]);
    assert ActiveMembers([""]) == [] by { assert [""][1..] == []; }
    assert ActiveMembers([b]) == [b] by { assert [b][1..] == []; }
    assert ActiveMembers([c]) == [c] by { assert [c][1..] == []; }
    assert [b, c, ""] == [b] + ([c] + [""]);
  }

  lemma ExampleLabels()
    ensures MemberLabel(1) == "Member 1" && MemberLabel(2) == "Member 2"
  {
    assert NatToDecimal(1) == "1";
    assert NatToDecimal(2) == "2";
  }

  lemma ExamplePayload(b: string, c: string)
    requires Plain(b) && Plain(c)
    ensures TeamMembersPayload([b, c], 2) == [TeamMember(b, "Member 1"), TeamMember(c, "Member 2")]
  {
    TrimKeepsPlainText(b);
    TrimKeepsPlainText(c);
    ExampleLabels();
    var members := TeamMembersPayload([b, c], 2);
    assert members[0] == TeamMember(b, "Member 1");
    assert members[1] == TeamMember(c, "Member 2");
  }
}
