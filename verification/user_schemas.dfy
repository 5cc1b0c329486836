/** The request-body schemas for users: password strength, the VAT format,
    phones, addresses and profiles, and the register and insert schemas
    assembled from them. The schema library reports every failed check of a
    field, in the order the checks are declared, and the fields of an object
    in declaration order. Email syntax and ObjectId syntax belong to
    libraries and are parameters. */
module UserSchemas {
  import opened Common
  import opened Users
  import AuthService

  predicate IsLower(c: char) { 'a' <= c <= 'z' }
  predicate IsUpper(c: char) { 'A' <= c <= 'Z' }
  /** `\d` without the Unicode flag: an ASCII digit. */
  predicate IsDigit(c: char) { '0' <= c <= '9' }
  predicate IsSpecial(c: char) { c in "!@#$%^&*" }

  predicate HasLower(s: string) { exists i :: 0 <= i < |s| && IsLower(s[i]) }
  predicate HasUpper(s: string) { exists i :: 0 <= i < |s| && IsUpper(s[i]) }
  predicate HasDigit(s: string) { exists i :: 0 <= i < |s| && IsDigit(s[i]) }
  predicate HasSpecial(s: string) { exists i :: 0 <= i < |s| && IsSpecial(s[i]) }

  const MinPasswordLength := 8

  /** The five password checks, in declaration order. */
  datatype PasswordRule = TooShort | MissingLowercase | MissingUppercase | MissingDigit | MissingSpecial

  function PasswordMessage(rule: PasswordRule): string {
    match rule
    case TooShort => "Too small: expected string to have >=8 characters"
    case MissingLowercase => "Password must contain lowercase"
    case MissingUppercase => "Password must contain uppercase"
    case MissingDigit => "Password must contain number"
    case MissingSpecial => "Password must contain special character"
  }

  /** The checks in declaration order. */
  const PasswordRules := [TooShort, MissingLowercase, MissingUppercase, MissingDigit, MissingSpecial]

  /** Whether `pw` fails `rule`. */
  predicate Fails(pw: string, rule: PasswordRule) {
    match rule
    case TooShort => |pw| < MinPasswordLength
    case MissingLowercase => !HasLower(pw)
    case MissingUppercase => !HasUpper(pw)
    case MissingDigit => !HasDigit(pw)
    case MissingSpecial => !HasSpecial(pw)
  }

  predicate StrongPassword(pw: string) {
    |pw| >= MinPasswordLength && HasLower(pw) && HasUpper(pw) && HasDigit(pw) && HasSpecial(pw)
  }

  /** `rule` when `pw` fails it, nothing otherwise. */
  function Listed(pw: string, rule: PasswordRule): seq<PasswordRule> {
    if Fails(pw, rule) then [rule] else []
  }

  /** The failed password checks, in declaration order. */
  function PasswordIssues(pw: string): (issues: seq<PasswordRule>)
    ensures forall rule :: rule in issues <==> Fails(pw, rule)
    ensures issues == [] <==> StrongPassword(pw)
    ensures issues == Listed(pw, TooShort) + Listed(pw, MissingLowercase) + Listed(pw, MissingUppercase)
                      + Listed(pw, MissingDigit) + Listed(pw, MissingSpecial)
  {
    var issues := Filter(PasswordRules, (rule: PasswordRule) => Fails(pw, rule));
    EveryRuleListed(pw, issues);
    RulesInOrder(pw, issues);
    issues
  }

  /** Filtering the declared checks lists the failed ones one rule after
      another, in declaration order. */
  lemma {:induction false} RulesInOrder(pw: string, issues: seq<PasswordRule>)
    requires issues == Filter(PasswordRules, (rule: PasswordRule) => Fails(pw, rule))
    ensures issues == Listed(pw, TooShort) + Listed(pw, MissingLowercase) + Listed(pw, MissingUppercase)
                      + Listed(pw, MissingDigit) + Listed(pw, MissingSpecial)
  {
    var p := (rule: PasswordRule) => Fails(pw, rule);
    FilterFive(TooShort, MissingLowercase, MissingUppercase, MissingDigit, MissingSpecial, p);
    forall rule ensures Listed(pw, rule) == Kept(rule, p) { }
  }

  lemma {:induction false} EveryRuleListed(pw: string, issues: seq<PasswordRule>)
    requires issues == Filter(PasswordRules, (rule: PasswordRule) => Fails(pw, rule))
    ensures forall rule :: rule in issues <==> Fails(pw, rule)
  {
    forall rule | Fails(pw, rule)
      ensures rule in issues
    {
      var i := match rule
        case TooShort => 0 case MissingLowercase => 1 case MissingUppercase => 2
        case MissingDigit => 3 case MissingSpecial => 4;
      assert PasswordRules[i] == rule;
    }
  }

  /** One pass over the password that records which character classes
      occur, then reports the failed checks in declaration order. */
  method CheckPassword(pw: string) returns (issues: seq<PasswordRule>)
    ensures forall rule :: rule in issues <==> Fails(pw, rule)
    ensures issues == [] <==> StrongPassword(pw)
    ensures issues == PasswordIssues(pw)
  {
    var lower, upper, digit, special := false, false, false, false;
    var i := 0;
    while i < |pw|
      invariant 0 <= i <= |pw|
      invariant lower <==> exists j :: 0 <= j < i && IsLower(pw[j])
      invariant upper <==> exists j :: 0 <= j < i && IsUpper(pw[j])
      invariant digit <==> exists j :: 0 <= j < i && IsDigit(pw[j])
      invariant special <==> exists j :: 0 <= j < i && IsSpecial(pw[j])
    {
      var c := pw[i];
      lower := lower || IsLower(c);
      upper := upper || IsUpper(c);
      digit := digit || IsDigit(c);
      special := special || IsSpecial(c);
      i := i + 1;
    }
    assert lower == HasLower(pw) && upper == HasUpper(pw) && digit == HasDigit(pw) && special == HasSpecial(pw);
    issues := ReportFailures(pw, lower, upper, digit, special);
  }

  /** The report at the end of the pass, from the character classes seen. */
  method ReportFailures(pw: string, lower: bool, upper: bool, digit: bool, special: bool) returns (issues: seq<PasswordRule>)
    requires lower == HasLower(pw) && upper == HasUpper(pw) && digit == HasDigit(pw) && special == HasSpecial(pw)
    ensures issues == PasswordIssues(pw)
  {
    issues := [];
    if |pw| < MinPasswordLength { issues := issues + [TooShort]; }
    assert issues == Listed(pw, TooShort);
    if !lower { issues := issues + [MissingLowercase]; }
    assert issues == Listed(pw, TooShort) + Listed(pw, MissingLowercase);
    if !upper { issues := issues + [MissingUppercase]; }
    assert issues == Listed(pw, TooShort) + Listed(pw, MissingLowercase) + Listed(pw, MissingUppercase);
    if !digit { issues := issues + [MissingDigit]; }
    assert issues == Listed(pw, TooShort) + Listed(pw, MissingLowercase) + Listed(pw, MissingUppercase)
                     + Listed(pw, MissingDigit);
    if !special { issues := issues + [MissingSpecial]; }
    assert issues == Listed(pw, TooShort) + Listed(pw, MissingLowercase) + Listed(pw, MissingUppercase)
                     + Listed(pw, MissingDigit) + Listed(pw, MissingSpecial);
  }

  /** Adding a character never makes a passed check fail. */
  lemma {:induction false} PasswordChecksMonotone(pw: string, c: char)
    ensures forall r :: r in PasswordIssues(pw + [c]) ==> r in PasswordIssues(pw)
  {
    var t := pw + [c];
    assert forall j :: 0 <= j < |pw| ==> t[j] == pw[j];
    forall r
      ensures Fails(t, r) ==> Fails(pw, r)
    {
      match r
      case TooShort =>
      case MissingLowercase =>
        if HasLower(pw) { var j :| 0 <= j < |pw| && IsLower(pw[j]); assert IsLower(t[j]); }
      case MissingUppercase =>
        if HasUpper(pw) { var j :| 0 <= j < |pw| && IsUpper(pw[j]); assert IsUpper(t[j]); }
      case MissingDigit =>
        if HasDigit(pw) { var j :| 0 <= j < |pw| && IsDigit(pw[j]); assert IsDigit(t[j]); }
      case MissingSpecial =>
        if HasSpecial(pw) { var j :| 0 <= j < |pw| && IsSpecial(pw[j]); assert IsSpecial(t[j]); }
    }
  }

  /** A short lowercase word fails every check but the lowercase one. */
  lemma {:induction false} WeakPasswordExample()
    ensures forall r :: r in PasswordIssues("secret") <==> r != MissingLowercase
  {
    var s := "secret";
    assert IsLower(s[0]);
    assert forall i :: 0 <= i < |s| ==> IsLower(s[i]);
    assert !HasUpper(s) && !HasDigit(s) && !HasSpecial(s);
  }

  /** Eight characters with one of each class pass. */
  lemma {:induction false} StrongPasswordExample()
    ensures PasswordIssues("Passw0rd!") == []
  {
    var p := "Passw0rd!";
    assert StrongPassword(p) by {
      assert |p| == 9;
      assert IsUpper(p[0]) && IsLower(p[1]) && IsDigit(p[5]);
      assert p[8] == '!';
      assert IsSpecial(p[8]);
    }
  }

  const MinVatLength := 10

  /** `^\d{10,}$`: ten or more ASCII digits and nothing else. */
  predicate VatFormat(vat: string) {
    |vat| >= MinVatLength && forall i :: 0 <= i < |vat| ==> IsDigit(vat[i])
  }

  /** A scanner for the VAT pattern: counts leading digits and requires them
      to cover the whole input. */
  method MatchVat(vat: string) returns (ok: bool)
    ensures ok <==> VatFormat(vat)
  {
    var n := 0;
    while n < |vat| && IsDigit(vat[n])
      invariant 0 <= n <= |vat|
      invariant forall j :: 0 <= j < n ==> IsDigit(vat[j])
    {
      n := n + 1;
    }
    ok := n == |vat| && n >= MinVatLength;
  }

  /** A field path inside the request body. */
  datatype PathItem = Key(name: string) | Index(i: nat)

  /** One reported validation issue. */
  datatype Issue = Issue(path: seq<PathItem>, message: string)

  function Under(prefix: seq<PathItem>, issues: seq<Issue>): (r: seq<Issue>)
    ensures |r| == |issues|
    ensures forall i :: 0 <= i < |r| ==> r[i] == Issue(prefix + issues[i].path, issues[i].message)
  {
    seq(|issues|, i requires 0 <= i < |issues| => Issue(prefix + issues[i].path, issues[i].message))
  }

  predicate ValidPhone(p: Phone) { |p.phoneType| >= 1 && |p.phone| >= 10 }

  function PhoneIssues(p: Phone): (r: seq<Issue>)
    ensures r == [] <==> ValidPhone(p)
  {
    (if |p.phoneType| >= 1 then [] else [Issue([Key("type")], "Phone type is required")])
    + (if |p.phone| >= 10 then [] else [Issue([Key("phone")], "Phone number must have at least 10 numbers")])
  }

  predicate ValidAddress(a: Address) {
    a.street != "" && a.number != "" && a.city != "" && a.zipCode != ""
  }

  function AddressIssues(a: Address): (r: seq<Issue>)
    ensures r == [] <==> ValidAddress(a)
    ensures |r| <= 4
  {
    (if a.street != "" then [] else [Issue([Key("street")], "Street is required")])
    + (if a.number != "" then [] else [Issue([Key("number")], "Street number is required")])
    + (if a.city != "" then [] else [Issue([Key("city")], "City is required")])
    + (if a.zipCode != "" then [] else [Issue([Key("zipCode")], "Zip Code is required")])
  }

  /** Issues of the phones from position `from` on, each under its index. */
  function PhonesIssues(phones: seq<Phone>, from: nat): (r: seq<Issue>)
    requires from <= |phones|
    ensures r == [] <==> forall i :: from <= i < |phones| ==> ValidPhone(phones[i])
    decreases |phones| - from
  {
    if from == |phones| then []
    else Under([Index(from)], PhoneIssues(phones[from])) + PhonesIssues(phones, from + 1)
  }

  /** Every profile field is optional; present phones and a present address
      must be complete. */
  predicate ValidProfile(p: Profile) {
    (p.phones.None? || forall i :: 0 <= i < |p.phones.value| ==> ValidPhone(p.phones.value[i]))
    && (p.address.None? || ValidAddress(p.address.value))
  }

  function ProfileIssues(p: Profile): (r: seq<Issue>)
    ensures r == [] <==> ValidProfile(p)
  {
    (if p.phones.Some? then Under([Key("phones")], PhonesIssues(p.phones.value, 0)) else [])
    + (if p.address.Some? then Under([Key("address")], AddressIssues(p.address.value)) else [])
  }

  /** The register schema. `isEmail` is the library's email-format test. */
  predicate ValidRegistration(dto: AuthService.Registration, isEmail: string -> bool) {
    isEmail(dto.email) && VatFormat(dto.vat) && StrongPassword(dto.password)
    && (dto.profile.None? || ValidProfile(dto.profile.value))
  }

  function PasswordFieldIssues(pw: string): (r: seq<Issue>)
    ensures |r| == |PasswordIssues(pw)|
    ensures forall i :: 0 <= i < |r| ==> r[i] == Issue([Key("password")], PasswordMessage(PasswordIssues(pw)[i]))
  {
    var rules := PasswordIssues(pw);
    seq(|rules|, i requires 0 <= i < |rules| => Issue([Key("password")], PasswordMessage(rules[i])))
  }

  /** All issues of a register body, field by field. */
  function RegistrationIssues(dto: AuthService.Registration, isEmail: string -> bool): (r: seq<Issue>)
    ensures r == [] <==> ValidRegistration(dto, isEmail)
  {
    var email := if isEmail(dto.email) then [] else [Issue([Key("email")], "Email must be a valid email address")];
    var vat := if VatFormat(dto.vat) then [] else [Issue([Key("vat")], "Vat must be at least 10 digits long")];
    var pw := PasswordFieldIssues(dto.password);
    var profile := if dto.profile.Some? then Under([Key("profile")], ProfileIssues(dto.profile.value)) else [];
    assert |pw| == 0 <==> StrongPassword(dto.password);
    assert |profile| == 0 <==> dto.profile.None? || ValidProfile(dto.profile.value);
    assert |email + vat + pw + profile| == |email| + |vat| + |pw| + |profile|;
    email + vat + pw + profile
  }

  /** The insert schema: the register schema plus a role that must be an
      ObjectId string. */
  function InsertIssues(dto: AuthService.Registration, role: string, isEmail: string -> bool, isObjectId: string -> bool): (r: seq<Issue>)
    ensures r == [] <==> ValidRegistration(dto, isEmail) && isObjectId(role)
    ensures RegistrationIssues(dto, isEmail) <= r
  {
    RegistrationIssues(dto, isEmail) + (if isObjectId(role) then [] else [Issue([Key("role")], "Invalid ObjectId")])
  }
}
