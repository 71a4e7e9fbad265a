/**
 * The user schema of server.js: the four fields of a user record, the
 * constraints Mongoose checks before a record is written, and the shape of
 * the email pattern `^\S+@\S+\.\S+$`.
 */
module Schema {
  import opened Wrappers

  /** The JSON body of a create or update request; a missing or null field is None. */
  datatype Body = Body(name: Option<string>, age: Option<real>, email: Option<string>, address: Option<string>)

  /** A stored user record with the identifier the store assigned to it. */
  datatype User = User(id: nat, name: string, age: int, email: string, address: Option<string>)

  /** One failed schema constraint; Mongoose reports at most one per field. */
  datatype Violation =
    | NameRequired      // 'Tên không được để trống'
    | NameTooShort      // 'Tên phải có ít nhất 2 ký tự'
    | AgeRequired       // 'Tuổi không được để trống'
    | AgeBelowMin       // 'Tuổi phải >= 0'
    | AgeNotInteger     // 'Tuổi phải là số nguyên'
    | EmailRequired     // 'Email không được để trống'
    | EmailMalformed    // 'Email không hợp lệ'

  const MinNameLength := 2
  const MinAge := 0

  /** The characters JavaScript's `\s` class matches; `\S` is every other character. */
  predicate IsSpace(c: char) {
    || c == '\t' || c == '\n' || c == '\U{000B}' || c == '\U{000C}' || c == '\r' || c == ' '
    || c == '\U{00A0}' || c == '\U{1680}' || ('\U{2000}' <= c <= '\U{200A}')
    || c == '\U{2028}' || c == '\U{2029}' || c == '\U{202F}' || c == '\U{205F}'
    || c == '\U{3000}' || c == '\U{FEFF}'
  }

  predicate NoSpace(s: string) {
    forall k :: 0 <= k < |s| ==> !IsSpace(s[k])
  }

  /**
   * `^\S+@\S+\.\S+$` without regex machinery: no whitespace anywhere, an '@'
   * after at least one character, and a '.' at least one character after the
   * '@' that is followed by at least one character.
   */
  predicate IsEmail(s: string) {
    && NoSpace(s)
    && exists i, j :: 1 <= i && i + 2 <= j <= |s| - 2 && s[i] == '@' && s[j] == '.'
  }

  /** The regex read literally: three non-empty runs of non-space characters joined by "@" and ".". */
  predicate SplitsAsEmail(s: string, local: string, domain: string, tld: string) {
    && |local| > 0 && |domain| > 0 && |tld| > 0
    && NoSpace(local) && NoSpace(domain) && NoSpace(tld)
    && s == local + "@" + domain + "." + tld
  }

  /** The index characterisation and the literal reading of the pattern accept the same strings. */
  lemma EmailShapeIff(s: string)
    ensures IsEmail(s) <==> exists local, domain, tld :: SplitsAsEmail(s, local, domain, tld)
  {
    if IsEmail(s) {
      var i, j :| 1 <= i && i + 2 <= j <= |s| - 2 && s[i] == '@' && s[j] == '.';
      var local, domain, tld := s[..i], s[i + 1..j], s[j + 1..];
      assert s == local + "@" + domain + "." + tld;
      assert SplitsAsEmail(s, local, domain, tld);
    }
    if exists local, domain, tld :: SplitsAsEmail(s, local, domain, tld) {
      var local, domain, tld :| SplitsAsEmail(s, local, domain, tld);
      var i, j := |local|, |local| + 1 + |domain|;
      assert s[i] == '@' && s[j] == '.';
      forall k | 0 <= k < |s| ensures !IsSpace(s[k]) {
        if k < i { assert s[k] == local[k]; }
        else if i < k < j { assert s[k] == domain[k - i - 1]; }
        else if j < k { assert s[k] == tld[k - j - 1]; }
      }
    }
  }

  /** What the schema accepts: name of length at least 2, a whole non-negative age, a well-formed email; address is free. */
  predicate IsValidBody(b: Body) {
    && b.name.Some? && |b.name.value| >= MinNameLength
    && b.age.Some? && b.age.value >= MinAge as real && b.age.value.Floor as real == b.age.value
    && b.email.Some? && IsEmail(b.email.value)
  }

  /** The same constraints on a record already carrying its identifier. */
  predicate IsValidUser(u: User) {
    |u.name| >= MinNameLength && u.age >= MinAge && IsEmail(u.email)
  }

  /** Mongoose's `required` check for a string: present and not empty. */
  predicate PresentText(s: Option<string>) {
    s.Some? && |s.value| > 0
  }

  function NameViolations(name: Option<string>): (r: seq<Violation>)
    ensures |r| <= 1
    ensures r == [NameRequired] <==> !PresentText(name)
    ensures r == [NameTooShort] <==> PresentText(name) && |name.value| < MinNameLength
    ensures r == [] <==> name.Some? && |name.value| >= MinNameLength
  {
    if !PresentText(name) then [NameRequired]
    else if |name.value| < MinNameLength then [NameTooShort]
    else []
  }

  function AgeViolations(age: Option<real>): (r: seq<Violation>)
    ensures |r| <= 1
    ensures r == [AgeRequired] <==> age.None?
    ensures r == [AgeBelowMin] <==> age.Some? && age.value < MinAge as real
    ensures r == [AgeNotInteger] <==> age.Some? && age.value >= MinAge as real && age.value.Floor as real != age.value
    ensures r == [] <==> age.Some? && age.value >= MinAge as real && age.value.Floor as real == age.value
  {
    if age.None? then [AgeRequired]
    else if age.value < MinAge as real then [AgeBelowMin]
    else if age.value.Floor as real != age.value then [AgeNotInteger]
    else []
  }

  function EmailViolations(email: Option<string>): (r: seq<Violation>)
    ensures |r| <= 1
    ensures r == [EmailRequired] <==> !PresentText(email)
    ensures r == [EmailMalformed] <==> PresentText(email) && !IsEmail(email.value)
    ensures r == [] <==> email.Some? && IsEmail(email.value)
  {
    if !PresentText(email) then [EmailRequired]
    else if !IsEmail(email.value) then [EmailMalformed]
    else []
  }

  /**
   * The validation errors of a body, in schema order: for each field the
   * first of its validators that fails (required, then the range or length
   * check, then the integer or pattern check).
   */
  function Violations(b: Body): (r: seq<Violation>)
    ensures r == [] <==> IsValidBody(b)
    ensures |r| <= 3
    ensures NameRequired in r <==> !PresentText(b.name)
    ensures NameTooShort in r <==> PresentText(b.name) && |b.name.value| < MinNameLength
    ensures AgeRequired in r <==> b.age.None?
    ensures EmailRequired in r <==> !PresentText(b.email)
    ensures AgeBelowMin in r <==> b.age.Some? && b.age.value < MinAge as real
    ensures AgeNotInteger in r <==> b.age.Some? && b.age.value >= MinAge as real && b.age.value.Floor as real != b.age.value
    ensures EmailMalformed in r <==> PresentText(b.email) && !IsEmail(b.email.value)
  {
    NameViolations(b.name) + AgeViolations(b.age) + EmailViolations(b.email)
  }

  /** The record stored for a valid body: the body's four fields under the given identifier. */
  function ToUser(id: nat, b: Body): (u: User)
    requires IsValidBody(b)
    ensures IsValidUser(u) && u.id == id
    ensures Some(u.name) == b.name && Some(u.age as real) == b.age
    ensures Some(u.email) == b.email && u.address == b.address
  {
    User(id, b.name.value, b.age.value.Floor, b.email.value, b.address)
  }

  /** A negative age is refused. */
  lemma NegativeAgeRejected(b: Body)
    requires b.age == Some(-1.0)
    ensures AgeBelowMin in Violations(b) && !IsValidBody(b)
  {
  }

  /** A fractional age is refused. */
  lemma FractionalAgeRejected(b: Body)
    requires b.age == Some(2.5)
    ensures AgeNotInteger in Violations(b) && !IsValidBody(b)
  {
  }

  /** "bad" is not an email address. */
  lemma BadEmailRejected(b: Body)
    requires b.email == Some("bad")
    ensures Violations(b) != [] && EmailMalformed in Violations(b)
  {
  }

  /** Name "Al", age 20 and email "a@b.com" pass every check. */
  lemma SmallestValidBodyAccepted(address: Option<string>)
    ensures Violations(Body(Some("Al"), Some(20.0), Some("a@b.com"), address)) == []
  {
    var e := "a@b.com";
    assert e[1] == '@' && e[3] == '.';
    assert IsEmail(e);
  }
}
