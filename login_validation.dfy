/**
 * The standalone login form's validation (script.js): the three fields are
 * trimmed, then checked in a fixed order, and the first failing check
 * decides the message shown.
 */
module LoginValidation {
  import opened Wrappers

  /** The checks that can fail, each with the message it puts in the error element. */
  datatype Problem = RoleMissing | FieldsMissing | BadStudentId | BadAdminId | ShortPassword

  function Message(p: Problem): (m: string)
    ensures m != ""
  {
    match p
    case RoleMissing => "Please select a role."
    case FieldsMissing => "Please enter all required fields."
    case BadStudentId => "Invalid Registration ID format. (e.g., RA2311003050404)"
    case BadAdminId => "Invalid Employee ID format. (e.g., EMP1000)"
    case ShortPassword => "Password must be at least 6 characters."
  }

  /** The shortest password accepted, in UTF-16 code units. */
  const MinPasswordLength := 6

  /** ECMAScript white space and line terminators: what `String.prototype.trim` strips. */
  predicate IsWhitespace(c: char)
    ensures IsWhitespace(c) ==> !IsDigit(c) && !('A' <= c <= 'Z')
  {
    || c == '\t' || c == '\n' || c == '\U{000B}' || c == '\U{000C}' || c == '\r' || c == ' '
    || c == '\U{00A0}' || c == '\U{1680}' || ('\U{2000}' <= c <= '\U{200A}')
    || c == '\U{2028}' || c == '\U{2029}' || c == '\U{202F}' || c == '\U{205F}'
    || c == '\U{3000}' || c == '\U{FEFF}'
  }

  predicate AllWhitespace(s: string) {
    forall i :: 0 <= i < |s| ==> IsWhitespace(s[i])
  }

  /** Leading white space removed. */
  function TrimStart(s: string): (r: string)
    ensures |r| <= |s|
  {
    if s != [] && IsWhitespace(s[0]) then TrimStart(s[1..]) else s
  }

  /** Trailing white space removed. */
  function TrimEnd(s: string): (r: string)
    ensures |r| <= |s|
  {
    if s != [] && IsWhitespace(s[|s| - 1]) then TrimEnd(s[..|s| - 1]) else s
  }

  /** `String.prototype.trim`: white space removed at both ends. */
  function Trim(s: string): (r: string)
    ensures |r| <= |s|
  {
    TrimEnd(TrimStart(s))
  }

  /** TrimStart removes a white-space prefix and stops at a character that is not white space. */
  lemma {:induction false} TrimStartShape(s: string)
    ensures var r := TrimStart(s);
            && r == s[|s| - |r|..]
            && AllWhitespace(s[..|s| - |r|])
            && (r == [] || !IsWhitespace(r[0]))
  {
    if s != [] && IsWhitespace(s[0]) {
      TrimStartShape(s[1..]);
      var r := TrimStart(s[1..]);
      assert s[..|s| - |r|] == [s[0]] + s[1..][..|s[1..]| - |r|];
    }
  }

  /** TrimEnd removes a white-space suffix and stops at a character that is not white space. */
  lemma {:induction false} TrimEndShape(s: string)
    ensures var r := TrimEnd(s);
            && r == s[..|r|]
            && AllWhitespace(s[|r|..])
            && (r == [] || !IsWhitespace(r[|r| - 1]))
  {
    if s != [] && IsWhitespace(s[|s| - 1]) {
      TrimEndShape(s[..|s| - 1]);
      var r := TrimEnd(s[..|s| - 1]);
      assert s[|r|..] == s[..|s| - 1][|r|..] + [s[|s| - 1]];
    }
  }

  /** Trim keeps the middle of its input: what it drops before and after the result is white space. */
  lemma TrimShape(s: string)
    ensures var r := Trim(s);
            var k := |s| - |TrimStart(s)|;
            && k + |r| <= |s|
            && r == s[k..k + |r|]
            && AllWhitespace(s[..k]) && AllWhitespace(s[k + |r|..])
  {
    var t := TrimStart(s);
    var r := TrimEnd(t);
    var k := |s| - |t|;
    assert t == s[k..] && AllWhitespace(s[..k]) by { TrimStartShape(s); }
    assert r == t[..|r|] && AllWhitespace(t[|r|..]) by { TrimEndShape(t); }
    assert r == s[k..k + |r|];
    var tail := s[k + |r|..];
    forall i | 0 <= i < |tail|
      ensures IsWhitespace(tail[i])
    {
      assert tail[i] == t[|r|..][i];
    }
  }

  /** Trim's result neither starts nor ends with white space. */
  lemma TrimEnds(s: string)
    ensures var r := Trim(s);
            r == [] || (!IsWhitespace(r[0]) && !IsWhitespace(r[|r| - 1]))
  {
    var t := TrimStart(s);
    var r := TrimEnd(t);
    assert t == [] || !IsWhitespace(t[0]) by { TrimStartShape(s); }
    assert r == t[..|r|] && (r == [] || !IsWhitespace(r[|r| - 1])) by { TrimEndShape(t); }
    if r != [] {
      assert r[0] == t[0];
    }
  }

  /** Stripping leading white space stops at the first other character. */
  lemma {:induction false} TrimStartSkips(a: string, t: string)
    requires AllWhitespace(a)
    requires t == [] || !IsWhitespace(t[0])
    ensures TrimStart(a + t) == t
  {
    if a != [] {
      assert (a + t)[1..] == a[1..] + t;
      TrimStartSkips(a[1..], t);
    }
  }

  /** Stripping trailing white space stops at the last other character. */
  lemma {:induction false} TrimEndSkips(t: string, b: string)
    requires AllWhitespace(b)
    requires t == [] || !IsWhitespace(t[|t| - 1])
    ensures TrimEnd(t + b) == t
  {
    if b != [] {
      var s := t + b;
      assert IsWhitespace(s[|s| - 1]);
      assert s[..|s| - 1] == t + b[..|b| - 1];
      TrimEndSkips(t, b[..|b| - 1]);
    } else {
      assert t + b == t;
    }
  }

  /**
   * Trim is determined by its result's shape: whatever white space pads a
   * core that neither starts nor ends with white space, the core is returned.
   */
  lemma TrimCharacterised(a: string, m: string, b: string)
    requires AllWhitespace(a) && AllWhitespace(b)
    requires m == [] || (!IsWhitespace(m[0]) && !IsWhitespace(m[|m| - 1]))
    ensures Trim(a + m + b) == m
  {
    if m == [] {
      assert a + m + b == (a + b) + [];
      TrimStartSkips(a + b, []);
    } else {
      assert a + m + b == a + (m + b);
      TrimStartSkips(a, m + b);
      TrimEndSkips(m, b);
    }
  }

  /** Trimming twice is trimming once. */
  lemma TrimIdempotent(s: string)
    ensures Trim(Trim(s)) == Trim(s)
  {
    var t := Trim(s);
    TrimEnds(s);
    var none: string := [];
    assert AllWhitespace(none);
    TrimCharacterised(none, t, none);
    assert none + t + none == t;
  }

  /** `String.prototype.length`: code points above U+FFFF take two UTF-16 code units. */
  function Utf16Length(s: string): (n: nat)
    ensures |s| <= n <= 2 * |s|
  {
    if s == [] then 0
    else (if s[0] as int > 0xFFFF then 2 else 1) + Utf16Length(s[1..])
  }

  /** `\d` in a regular expression without the `u` flag: an ASCII digit. */
  predicate IsDigit(c: char) {
    '0' <= c <= '9'
  }

  predicate AllDigits(s: string) {
    forall i :: 0 <= i < |s| ==> IsDigit(s[i])
  }

  /** `/^RA\d{14}$/`. */
  predicate IsStudentId(id: string)
    ensures IsStudentId(id) ==> |id| > 0 && !IsWhitespace(id[0]) && !IsWhitespace(id[|id| - 1])
  {
    |id| == 16 && id[..2] == "RA" && AllDigits(id[2..])
  }

  /** `/^EMP\d{4}$/`. */
  predicate IsAdminId(id: string)
    ensures IsAdminId(id) ==> |id| > 0 && !IsWhitespace(id[0]) && !IsWhitespace(id[|id| - 1])
  {
    |id| == 7 && id[..3] == "EMP" && AllDigits(id[3..])
  }

  /** `/^RA\d{14}$/` is exactly "RA" followed by fourteen digits. */
  lemma StudentIdPattern(digits: string)
    ensures IsStudentId("RA" + digits) <==> |digits| == 14 && AllDigits(digits)
  {
    assert ("RA" + digits)[..2] == "RA" && ("RA" + digits)[2..] == digits;
  }

  /** `/^EMP\d{4}$/` is exactly "EMP" followed by four digits. */
  lemma AdminIdPattern(digits: string)
    ensures IsAdminId("EMP" + digits) <==> |digits| == 4 && AllDigits(digits)
  {
    assert ("EMP" + digits)[..3] == "EMP" && ("EMP" + digits)[3..] == digits;
  }

  /**
   * The checks on the trimmed fields, in the order the handler makes them:
   * each pairs "this check fails" with the problem it reports.
   */
  function Checks(role: string, regId: string, password: string): (cs: seq<(bool, Problem)>)
    ensures |cs| == 5
  {
    [ (role == "", RoleMissing),
      (regId == "" || password == "", FieldsMissing),
      (role == "student" && !IsStudentId(regId), BadStudentId),
      (role == "admin" && !IsAdminId(regId), BadAdminId),
      (Utf16Length(password) < MinPasswordLength, ShortPassword) ]
  }

  /** The early-return chain on already trimmed fields. */
  function Check(role: string, regId: string, password: string): (r: Outcome<Problem>)
    ensures role == "" ==> r == Fail(RoleMissing)
    ensures r == Pass <==> && role != "" && regId != "" && password != ""
                           && (role == "student" ==> IsStudentId(regId))
                           && (role == "admin" ==> IsAdminId(regId))
                           && Utf16Length(password) >= MinPasswordLength
  {
    if role == "" then Fail(RoleMissing)
    else if regId == "" || password == "" then Fail(FieldsMissing)
    else if role == "student" && !IsStudentId(regId) then Fail(BadStudentId)
    else if role == "admin" && !IsAdminId(regId) then Fail(BadAdminId)
    else if Utf16Length(password) < MinPasswordLength then Fail(ShortPassword)
    else Pass
  }

  /** The click handler's decision on the raw field values. */
  function Validate(roleField: string, idField: string, passwordField: string): (r: Outcome<Problem>)
    ensures Trim(roleField) == "" ==> r == Fail(RoleMissing)
  {
    Check(Trim(roleField), Trim(idField), Trim(passwordField))
  }

  /** What a passing submission guarantees about the role and id it carries on. */
  predicate Accepted(role: string, regId: string) {
    && role != "" && regId != ""
    && (role == "student" ==> IsStudentId(regId))
    && (role == "admin" ==> IsAdminId(regId))
  }

  /** A passing submission carries on a non-empty role and an id that matches the role's pattern. */
  lemma PassIsAccepted(roleField: string, idField: string, passwordField: string)
    requires Validate(roleField, idField, passwordField) == Pass
    ensures Accepted(Trim(roleField), Trim(idField))
  {
  }

  /** The first failing check sets the message: every check before it passed. */
  lemma FirstFailingCheckWins(role: string, regId: string, password: string, k: nat)
    requires k < |Checks(role, regId, password)|
    requires Checks(role, regId, password)[k].0
    requires forall j :: 0 <= j < k ==> !Checks(role, regId, password)[j].0
    ensures Check(role, regId, password) == Fail(Checks(role, regId, password)[k].1)
  {
    var cs := Checks(role, regId, password);
    if k > 0 { assert !cs[0].0; }
    if k > 1 { assert !cs[1].0; }
    if k > 2 { assert !cs[2].0; }
    if k > 3 { assert !cs[3].0; }
  }

  /** A role other than "student" or "admin" is not checked against either id pattern. */
  lemma OtherRoleSkipsIdFormat(role: string, regId: string, regId': string, password: string)
    requires role != "student" && role != "admin"
    requires regId != "" && regId' != ""
    ensures Check(role, regId, password) == Check(role, regId', password)
  {
  }

  /**
   * White space around the fields, whatever it is on each side of each
   * field, does not change the decision.
   */
  lemma ValidateIgnoresPadding(a1: string, b1: string, a2: string, b2: string, a3: string, b3: string,
                               role: string, regId: string, password: string)
    requires AllWhitespace(a1) && AllWhitespace(b1)
    requires AllWhitespace(a2) && AllWhitespace(b2)
    requires AllWhitespace(a3) && AllWhitespace(b3)
    requires role == Trim(role) && regId == Trim(regId) && password == Trim(password)
    ensures Validate(a1 + role + b1, a2 + regId + b2, a3 + password + b3) == Check(role, regId, password)
  {
    assert Trim(a1 + role + b1) == role by { TrimEnds(role); TrimCharacterised(a1, role, b1); }
    assert Trim(a2 + regId + b2) == regId by { TrimEnds(regId); TrimCharacterised(a2, regId, b2); }
    assert Trim(a3 + password + b3) == password by { TrimEnds(password); TrimCharacterised(a3, password, b3); }
  }

  /** A trimmed password shorter than six code units is refused whatever the other fields. */
  lemma ShortPasswordRefused(roleField: string, idField: string, passwordField: string)
    requires Utf16Length(Trim(passwordField)) < MinPasswordLength
    ensures Validate(roleField, idField, passwordField).Fail?
  {
  }

  /** The documented id shapes: exact prefix, exact digit count. */
  lemma IdPatternExamples()
    ensures IsStudentId("RA23110030504041")
    ensures !IsStudentId("RA123")
    ensures IsAdminId("EMP1000")
    ensures !IsAdminId("EMP10")
    ensures !IsAdminId("EMP10000")
  {
    assert "RA23110030504041"[..2] == "RA";
    assert "EMP1000"[..3] == "EMP";
  }

  /** A field with nothing to strip at either end is left as it is. */
  lemma TrimUnpadded(s: string)
    requires s == [] || (!IsWhitespace(s[0]) && !IsWhitespace(s[|s| - 1]))
    ensures Trim(s) == s
  {
    var none: string := [];
    assert AllWhitespace(none);
    TrimCharacterised(none, s, none);
    assert none + s + none == s;
  }

  /** A well-formed student id has nothing to trim. */
  lemma StudentIdSurvivesTrim(regId: string)
    requires IsStudentId(regId)
    ensures Trim(regId) == regId
  {
    assert regId[0] == "RA"[0] == 'R';
    assert IsDigit(regId[2..][13]);
    TrimUnpadded(regId);
  }

  /** On trimmed fields, a student with a well-formed id and a long enough password passes every check. */
  lemma StudentChecksPass(regId: string, password: string)
    requires IsStudentId(regId) && Utf16Length(password) >= MinPasswordLength
    ensures Check("student", regId, password) == Pass
  {
  }

  /**
   * A student submission whose id matches the pattern and whose trimmed
   * password is long enough is accepted, the id unchanged by trimming.
   */
  lemma StudentSubmissionPasses(roleField: string, regId: string, passwordField: string)
    requires Trim(roleField) == "student" && IsStudentId(regId)
    requires Utf16Length(Trim(passwordField)) >= MinPasswordLength
    ensures Trim(regId) == regId
    ensures Validate(roleField, regId, passwordField) == Pass
  {
    StudentIdSurvivesTrim(regId);
    StudentChecksPass(regId, Trim(passwordField));
  }

  /**
   * The example the student-id message shows has only thirteen digits after
   * "RA", so the pattern it illustrates refuses it.
   */
  lemma StudentIdHintRefused()
    ensures Message(BadStudentId)[39..54] == "RA2311003050404"
    ensures |"2311003050404"| == 13
    ensures !IsStudentId("RA2311003050404")
    ensures Check("student", "RA2311003050404", "secret") == Fail(BadStudentId)
  {
  }
}
