/** The password rules of the registration page: the strength meter, the
    requirements checklist and the gate in front of the register call. */
module PasswordStrength {
  import opened Text

  predicate IsLower(c: char) { 'a' <= c <= 'z' }
  predicate IsUpper(c: char) { 'A' <= c <= 'Z' }
  predicate IsDigitChar(c: char) { '0' <= c <= '9' }
  predicate IsSymbol(c: char) { !IsLower(c) && !IsUpper(c) && !IsDigitChar(c) }

  /** `/[a-z]/.test(pass)` and its three companions. */
  predicate HasLower(p: string) { exists i :: 0 <= i < |p| && IsLower(p[i]) }
  predicate HasUpper(p: string) { exists i :: 0 <= i < |p| && IsUpper(p[i]) }
  predicate HasDigit(p: string) { exists i :: 0 <= i < |p| && IsDigitChar(p[i]) }
  predicate HasSymbol(p: string) { exists i :: 0 <= i < |p| && IsSymbol(p[i]) }

  function Point(b: bool): nat { if b then 1 else 0 }

  /** One point for each criterion met. */
  function Score(p: string): nat {
    Point(Utf16Length(p) >= 8) + Point(Utf16Length(p) >= 12)
    + Point(HasLower(p)) + Point(HasUpper(p)) + Point(HasDigit(p)) + Point(HasSymbol(p))
  }

  datatype Strength = Strength(score: nat, text: string, color: string)

  /** The label and colour for a score. */
  function Rating(score: nat): (r: Strength)
    ensures r.score == score
    ensures r.text == "Weak" <==> score <= 2
    ensures r.text == "Medium" <==> 3 <= score <= 4
    ensures r.text == "Strong" <==> score >= 5
  {
    if score <= 2 then Strength(score, "Weak", "bg-red-500")
    else if score <= 4 then Strength(score, "Medium", "bg-yellow-500")
    else Strength(score, "Strong", "bg-green-500")
  }

  /** `calculatePasswordStrength`, counting the criteria one by one. */
  method CalculatePasswordStrength(pass: string) returns (r: Strength)
    ensures pass == [] ==> r == Strength(0, "", "")
    ensures pass != [] ==> r == Rating(Score(pass))
    ensures r.score <= 6
  {
    var score := 0;
    if pass == [] {
      return Strength(0, "", "");
    }
    var length := Utf16Length(pass);
    if length >= 8 { score := score + 1; }
    if length >= 12 { score := score + 1; }
    if HasLower(pass) { score := score + 1; }
    if HasUpper(pass) { score := score + 1; }
    if HasDigit(pass) { score := score + 1; }
    if HasSymbol(pass) { score := score + 1; }
    r := Rating(score);
  }

  /** The score the form uses: zero for an empty password. */
  function StrengthScore(p: string): nat {
    if p == [] then 0 else Score(p)
  }

  /** The score is 0 exactly for the empty password: any character is lower
      case, upper case, a digit or a symbol, so it meets one criterion. */
  lemma ZeroScoreIffEmpty(p: string)
    ensures StrengthScore(p) == 0 <==> p == []
  {
    if p != [] {
      var c := p[0];
      if IsLower(c) { assert HasLower(p); }
      else if IsUpper(c) { assert HasUpper(p); }
      else if IsDigitChar(c) { assert HasDigit(p); }
      else { assert HasSymbol(p); }
    }
  }

  /** Typing one more character never lowers the score: every criterion
      that held still holds. */
  lemma ScoreMonotone(p: string, c: char)
    ensures StrengthScore(p + [c]) >= StrengthScore(p)
  {
    var q := p + [c];
    Utf16LengthAppend(p, c);
    if HasLower(p) {
      var i :| 0 <= i < |p| && IsLower(p[i]);
      assert q[i] == p[i];
    }
    if HasUpper(p) {
      var i :| 0 <= i < |p| && IsUpper(p[i]);
      assert q[i] == p[i];
    }
    if HasDigit(p) {
      var i :| 0 <= i < |p| && IsDigitChar(p[i]);
      assert q[i] == p[i];
    }
    if HasSymbol(p) {
      var i :| 0 <= i < |p| && IsSymbol(p[i]);
      assert q[i] == p[i];
    }
  }

  /** A strong password needs at least eight code units: without the two
      length points at most four criteria remain. */
  lemma StrongNeedsLength(p: string)
    requires Rating(StrengthScore(p)).text == "Strong"
    ensures Utf16Length(p) >= 8
  {
  }

  /** A character is exactly one of lower case, upper case, digit or other,
      so a one-character password scores 1. */
  lemma SingleCharacter(c: char)
    ensures Score([c]) == 1
  {
    var p := [c];
    assert Utf16Length(p) <= 2;
    if IsLower(c) {
      assert HasLower(p);
    } else if IsUpper(c) {
      assert HasUpper(p);
    } else if IsDigitChar(c) {
      assert HasDigit(p);
    } else {
      assert HasSymbol(p);
    }
  }

  // ---------------------------------------------------------------------
  // The requirements checklist

  datatype Requirement = Requirement(met: bool, text: string)

  function Requirements(password: string): (r: seq<Requirement>)
    ensures |r| == 4
  {
    [ Requirement(Utf16Length(password) >= 8, "At least 8 characters"),
      Requirement(HasLower(password), "One lowercase letter"),
      Requirement(HasUpper(password), "One uppercase letter"),
      Requirement(HasDigit(password), "One number") ]
  }

  /** Every requirement met gives a Medium or Strong password. */
  lemma RequirementsMeetGate(password: string)
    requires forall i :: 0 <= i < 4 ==> Requirements(password)[i].met
    ensures StrengthScore(password) >= 4
  {
    assert Requirements(password)[0].met && Requirements(password)[1].met;
    assert Requirements(password)[2].met && Requirements(password)[3].met;
  }

  /** The checklist flags count towards the score: the score is the number
      of flags met plus the twelve-unit and symbol points. */
  lemma RequirementsAreCriteria(password: string)
    requires password != []
    ensures StrengthScore(password) ==
              Point(Requirements(password)[0].met) + Point(Requirements(password)[1].met)
              + Point(Requirements(password)[2].met) + Point(Requirements(password)[3].met)
              + Point(Utf16Length(password) >= 12) + Point(HasSymbol(password))
  {
  }

  // ---------------------------------------------------------------------
  // The submit gate (`handleSubmit` before the register call)

  datatype Gate = Mismatch | TooWeak | Register

  function ErrorText(g: Gate): string {
    match g
    case Mismatch => "Passwords do not match"
    case TooWeak => "Please choose a stronger password"
    case Register => ""
  }

  /** The mismatch check comes first, then the strength check. */
  function SubmitGate(password: string, confirmPassword: string): (g: Gate)
    ensures g == Mismatch <==> password != confirmPassword
    ensures g == TooWeak <==> password == confirmPassword && StrengthScore(password) < 3
    ensures g == Register <==> password == confirmPassword && StrengthScore(password) >= 3
  {
    if password != confirmPassword then Mismatch
    else if StrengthScore(password) < 3 then TooWeak
    else Register
  }

  /** Registration is attempted only for a matching Medium or Strong
      password, and an empty password is always refused. */
  lemma GateAllowsOnlyMedium(password: string, confirmPassword: string)
    ensures SubmitGate(password, confirmPassword) == Register ==>
              Rating(StrengthScore(password)).text in {"Medium", "Strong"}
    ensures SubmitGate([], confirmPassword) != Register
  {
  }
}
