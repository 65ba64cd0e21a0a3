/** Password and secret primitives of the password manager: master-password
    hashing and key derivation (PBKDF2, passed in as a function because its
    implementation lives in a library), the password-strength rubric, the
    random password generator and the constant-time string comparison. */
module Crypto {
  import opened Wrappers
  import opened Text

  /** PBKDF2 iteration count used for every derivation. */
  const Iterations: nat := 100000
  /** Size of a derived key, in bits. */
  const KeySizeBits: nat := 256

  /** PBKDF2(password, salt, key size in 32-bit words, iterations), rendered as hex. */
  type Pbkdf2 = (string, string, nat, nat) -> string

  datatype HashAndSalt = HashAndSalt(hash: string, salt: string)

  /** The key derived from a master password and a salt. */
  function DeriveEncryptionKey(pbkdf2: Pbkdf2, masterPassword: string, salt: string): (key: string)
    // the key is the hash the master password gets under a supplied salt
    ensures salt != "" ==> key == GenerateMasterPasswordHash(pbkdf2, masterPassword, Some(salt), "").hash
  {
    pbkdf2(masterPassword, salt, KeySizeBits / 32, Iterations)
  }

  /** Hashes a master password.  A supplied salt is used unless it is absent or
      empty (both falsy), in which case the fresh random salt `randomSalt` is used. */
  function GenerateMasterPasswordHash(pbkdf2: Pbkdf2, masterPassword: string, salt: Option<string>,
                                      randomSalt: string): (r: HashAndSalt)
    ensures salt.Some? && salt.value != "" ==> r.salt == salt.value
    ensures salt.None? || salt.value == "" ==> r.salt == randomSalt
  {
    var passwordSalt := if salt.Some? && salt.value != "" then salt.value else randomSalt;
    HashAndSalt(pbkdf2(masterPassword, passwordSalt, 256 / 32, Iterations), passwordSalt)
  }

  /** Re-hashes `inputPassword` with the stored salt and compares with the stored hash.
      An empty stored salt is falsy, so a random salt is drawn instead. */
  function VerifyMasterPassword(pbkdf2: Pbkdf2, inputPassword: string, storedHash: string,
                                storedSalt: string, randomSalt: string): (ok: bool)
    ensures storedSalt != "" ==>
      (ok <==> storedHash == DeriveEncryptionKey(pbkdf2, inputPassword, storedSalt))
    ensures storedSalt == "" ==>
      (ok <==> storedHash == DeriveEncryptionKey(pbkdf2, inputPassword, randomSalt))
  {
    GenerateMasterPasswordHash(pbkdf2, inputPassword, Some(storedSalt), randomSalt).hash == storedHash
  }

  /** The verification hash is the encryption key: both are PBKDF2 with 256 bits
      and 100000 iterations over the same inputs. */
  lemma HashIsDerivedKey(pbkdf2: Pbkdf2, p: string, salt: string, randomSalt: string)
    ensures GenerateMasterPasswordHash(pbkdf2, p, Some(salt), randomSalt).hash
         == DeriveEncryptionKey(pbkdf2, p, if salt != "" then salt else randomSalt)
  {
  }

  /** Verifying a password against the hash generated from it succeeds. */
  lemma VerifyRoundTrip(pbkdf2: Pbkdf2, p: string, salt: Option<string>, rs1: string, rs2: string)
    requires GenerateMasterPasswordHash(pbkdf2, p, salt, rs1).salt != ""
    ensures var h := GenerateMasterPasswordHash(pbkdf2, p, salt, rs1);
            VerifyMasterPassword(pbkdf2, p, h.hash, h.salt, rs2)
  {
  }

  /** A stored hash different from the derived key is rejected. */
  lemma VerifyRejectsOtherHash(pbkdf2: Pbkdf2, p: string, h: string, salt: string, rs: string)
    requires salt != "" && h != DeriveEncryptionKey(pbkdf2, p, salt)
    ensures !VerifyMasterPassword(pbkdf2, p, h, salt, rs)
  {
  }

  // ---------------------------------------------------------------------------
  // Password strength

  datatype Strength = Strength(score: int, feedback: seq<string>, isStrong: bool)

  const MsgLength := "8文字以上にしてください"
  const MsgLower := "小文字を含めてください"
  const MsgUpper := "大文字を含めてください"
  const MsgDigit := "数字を含めてください"
  const MsgSpecial := "特殊文字を含めてください"
  const MsgStrong := "強力なパスワードです"

  /** The six messages begin with six different characters, so they are pairwise different. */
  lemma MessagesDistinct()
    ensures MsgLength[0] == '8' && MsgLower[0] == '小' && MsgUpper[0] == '大'
    ensures MsgDigit[0] == '数' && MsgSpecial[0] == '特' && MsgStrong[0] == '強'
  {
  }

  /** `/[a-z]/.test(s)` */
  predicate HasLower(s: string) { exists i :: 0 <= i < |s| && IsLower(s[i]) }
  /** `/[A-Z]/.test(s)` */
  predicate HasUpper(s: string) { exists i :: 0 <= i < |s| && IsUpper(s[i]) }
  /** `/[0-9]/.test(s)` */
  predicate HasDigit(s: string) { exists i :: 0 <= i < |s| && IsDigit(s[i]) }
  /** `/[^a-zA-Z0-9]/.test(s)` */
  predicate HasSpecial(s: string) { exists i :: 0 <= i < |s| && !IsAlnum(s[i]) }

  function Point(b: bool): nat { if b then 1 else 0 }

  /** The number of rules `p` passes: length >= 8, lowercase, uppercase, digit,
      non-alphanumeric. */
  function PassedRules(p: string): (n: nat)
    ensures n <= 5
  {
    Point(|p| >= 8) + Point(HasLower(p)) + Point(HasUpper(p)) + Point(HasDigit(p)) + Point(HasSpecial(p))
  }

  /** One message per failed rule, in the order length, lowercase, uppercase,
      digit, special. */
  function FailedFeedback(p: string): seq<string> {
    Omitted(|p| >= 8, MsgLength) + Omitted(HasLower(p), MsgLower) + Omitted(HasUpper(p), MsgUpper)
    + Omitted(HasDigit(p), MsgDigit) + Omitted(HasSpecial(p), MsgSpecial)
  }

  /** The message of a rule when it failed, nothing when it passed. */
  function Omitted(passed: bool, msg: string): seq<string> {
    if passed then [] else [msg]
  }

  /** The rubric stated as a whole: the score is the number of passed rules
      plus a bonus point for 12 or more characters, capped at 4; feedback is one
      message per failed rule, followed by the single positive note exactly when
      the password is strong and no rule failed. */
  function StrengthOf(p: string): (r: Strength)
    ensures 0 <= r.score <= 4
    // every evaluation says something: a failed rule's message or the positive note
    ensures r.feedback != []
  {
    FeedbackCount(p);
    var total := PassedRules(p) + Point(|p| >= 12);
    var score := if total < 4 then total else 4;
    var failed := FailedFeedback(p);
    Strength(score, failed + (if score >= 3 && failed == [] then [MsgStrong] else []), score >= 3)
  }

  /** `evaluatePasswordStrength`: accumulates the score and the feedback rule by rule. */
  method EvaluatePasswordStrength(password: string) returns (r: Strength)
    ensures r == StrengthOf(password)
  {
    var lengthOk, lower, upper, digit, special :=
      |password| >= 8, HasLower(password), HasUpper(password), HasDigit(password), HasSpecial(password);
    var feedback: seq<string> := [];
    var score := 0;
    if lengthOk { score := score + 1; } else { feedback := feedback + [MsgLength]; }
    assert score == Point(lengthOk) && feedback == Omitted(lengthOk, MsgLength);
    if lower { score := score + 1; } else { feedback := feedback + [MsgLower]; }
    assert score == Point(lengthOk) + Point(lower);
    assert feedback == Omitted(lengthOk, MsgLength) + Omitted(lower, MsgLower);
    if upper { score := score + 1; } else { feedback := feedback + [MsgUpper]; }
    assert score == Point(lengthOk) + Point(lower) + Point(upper);
    assert feedback == Omitted(lengthOk, MsgLength) + Omitted(lower, MsgLower) + Omitted(upper, MsgUpper);
    if digit { score := score + 1; } else { feedback := feedback + [MsgDigit]; }
    if special { score := score + 1; } else { feedback := feedback + [MsgSpecial]; }
    assert score == PassedRules(password);
    assert feedback == FailedFeedback(password);
    if |password| >= 12 {
      score := if score + 1 < 4 then score + 1 else 4;
    }
    score := if score < 0 then 0 else if score > 4 then 4 else score;
    var isStrong := score >= 3;
    if isStrong && |feedback| == 0 {
      feedback := feedback + [MsgStrong];
    }
    r := Strength(score, feedback, isStrong);
  }

  /** The score is min(passed rules + length bonus, 4), within 0..4, and the
      password is strong exactly when the score is at least 3. */
  lemma ScoreFormula(p: string)
    ensures var s := StrengthOf(p);
      && 0 <= s.score <= 4
      && s.score == (if PassedRules(p) + Point(|p| >= 12) < 4 then PassedRules(p) + Point(|p| >= 12) else 4)
      && (s.isStrong <==> s.score >= 3)
  {
  }

  /** Feedback holds exactly one message per failed rule. */
  lemma FeedbackCount(p: string)
    ensures |FailedFeedback(p)| == 5 - PassedRules(p)
  {
  }

  /** Each rule's message is in the feedback exactly when the rule failed. */
  lemma FeedbackPerFailedRule(p: string)
    ensures MsgLength in FailedFeedback(p) <==> |p| < 8
    ensures MsgLower in FailedFeedback(p) <==> !HasLower(p)
    ensures MsgUpper in FailedFeedback(p) <==> !HasUpper(p)
    ensures MsgDigit in FailedFeedback(p) <==> !HasDigit(p)
    ensures MsgSpecial in FailedFeedback(p) <==> !HasSpecial(p)
  {
    MessagesDistinct();
  }

  /** The positive note appears exactly when every rule passed. */
  lemma StrongNoteWhenAllPass(p: string)
    ensures MsgStrong in StrengthOf(p).feedback <==> PassedRules(p) == 5
  {
    MessagesDistinct();
    var f := FailedFeedback(p);
    assert MsgStrong !in f;
    FeedbackCount(p);
  }

  /** A password passing all five rules scores 4, is strong, and gets only the positive note. */
  lemma AllRulesPass(p: string)
    requires |p| >= 8 && HasLower(p) && HasUpper(p) && HasDigit(p) && HasSpecial(p)
    ensures StrengthOf(p) == Strength(4, [MsgStrong], true)
  {
  }

  /** "aaaa" fails the length, uppercase, digit and special rules and scores 1;
      "Aa1!Aa1!Aa1!" passes everything and is capped at 4. */
  lemma StrengthExamples()
    ensures StrengthOf("aaaa") == Strength(1, [MsgLength, MsgUpper, MsgDigit, MsgSpecial], false)
    ensures StrengthOf("Aa1!Aa1!Aa1!") == Strength(4, [MsgStrong], true)
  {
    var weak := "aaaa";
    assert IsLower(weak[0]);
    assert !HasUpper(weak) && !HasDigit(weak) && !HasSpecial(weak);
    var strong := "Aa1!Aa1!Aa1!";
    assert IsUpper(strong[0]) && IsLower(strong[1]) && IsDigit(strong[2]) && !IsAlnum(strong[3]);
  }

  // ---------------------------------------------------------------------------
  // Constant-time comparison

  /** JavaScript's `^` on non-negative operands, bit by bit from the lowest. */
  function BitXor(x: nat, y: nat): nat
    decreases x + y
  {
    if x == 0 then y
    else if y == 0 then x
    else 2 * BitXor(x / 2, y / 2) + (if x % 2 == y % 2 then 0 else 1)
  }

  /** JavaScript's `|` on non-negative operands, bit by bit from the lowest. */
  function BitOr(x: nat, y: nat): nat
    decreases x + y
  {
    if x == 0 then y
    else if y == 0 then x
    else 2 * BitOr(x / 2, y / 2) + (if x % 2 == 1 || y % 2 == 1 then 1 else 0)
  }

  /** The XOR of two codes is zero exactly when the codes are equal. */
  lemma {:induction false} XorZeroIffEqual(x: nat, y: nat)
    ensures BitXor(x, y) == 0 <==> x == y
    decreases x + y
  {
    if x != 0 && y != 0 {
      XorZeroIffEqual(x / 2, y / 2);
    }
  }

  /** An OR is zero exactly when both operands are. */
  lemma OrZeroIffBothZero(x: nat, y: nat)
    ensures BitOr(x, y) == 0 <==> x == 0 && y == 0
  {
  }

  /** `secureCompare`: false at once on a length mismatch, otherwise ORs the XOR
      of every pair of character codes into an accumulator, visiting every
      index (`visited`) before deciding. */
  method SecureCompare(a: string, b: string) returns (equal: bool, ghost visited: nat)
    ensures equal <==> a == b
    ensures |a| == |b| ==> visited == |a|
  {
    if |a| != |b| {
      return false, 0;
    }
    var result: nat := 0;
    visited := 0;
    for i := 0 to |a|
      invariant visited == i
      invariant result == 0 <==> forall k :: 0 <= k < i ==> a[k] == b[k]
    {
      XorZeroIffEqual(a[i] as int, b[i] as int);
      OrZeroIffBothZero(result, BitXor(a[i] as int, b[i] as int));
      result := BitOr(result, BitXor(a[i] as int, b[i] as int));
      visited := visited + 1;
    }
    equal := result == 0;
  }

  // ---------------------------------------------------------------------------
  // Random password generation

  datatype PasswordOptions = PasswordOptions(
    length: int,
    includeUppercase: bool,
    includeLowercase: bool,
    includeNumbers: bool,
    includeSymbols: bool,
    excludeSimilar: bool)

  /** The options object as a caller passes it: each field may be left out. */
  datatype GivenOptions = GivenOptions(
    length: Option<int>,
    includeUppercase: Option<bool>,
    includeLowercase: Option<bool>,
    includeNumbers: Option<bool>,
    includeSymbols: Option<bool>,
    excludeSimilar: Option<bool>)

  /** No options at all (`generateSecurePassword()`, i.e. `{}`). */
  const NoOptions := GivenOptions(None, None, None, None, None, None)

  /** The destructuring with defaults: each field left out is filled in on
      its own, as 16 characters, every class on, similar glyphs excluded. */
  function WithDefaults(g: GivenOptions): (o: PasswordOptions)
    ensures g.length.None? ==> o.length == 16
    ensures g.length.Some? ==> o.length == g.length.value
    ensures g.includeUppercase.None? || g.includeUppercase == Some(true) <==> o.includeUppercase
    ensures g.includeLowercase.None? || g.includeLowercase == Some(true) <==> o.includeLowercase
    ensures g.includeNumbers.None? || g.includeNumbers == Some(true) <==> o.includeNumbers
    ensures g.includeSymbols.None? || g.includeSymbols == Some(true) <==> o.includeSymbols
    ensures g.excludeSimilar.None? || g.excludeSimilar == Some(true) <==> o.excludeSimilar
  {
    PasswordOptions(
      if g.length.Some? then g.length.value else 16,
      if g.includeUppercase.Some? then g.includeUppercase.value else true,
      if g.includeLowercase.Some? then g.includeLowercase.value else true,
      if g.includeNumbers.Some? then g.includeNumbers.value else true,
      if g.includeSymbols.Some? then g.includeSymbols.value else true,
      if g.excludeSimilar.Some? then g.excludeSimilar.value else true)
  }

  const LowerAll := "abcdefghijklmnopqrstuvwxyz"
  const LowerDistinct := "abcdefghjkmnpqrstuvwxyz"
  const UpperAll := "ABCDEFGHIJKLMNOPQRSTUVWXYZ"
  const UpperDistinct := "ABCDEFGHJKMNPQRSTUVWXYZ"
  const DigitsAll := "0123456789"
  const DigitsDistinct := "23456789"
  const Symbols := "!@#$%^&*()_+-=[]{}|;:,.<>?"

  /** Glyphs that are easily confused with one another. */
  predicate IsSimilarGlyph(c: char) {
    c == '0' || c == '1' || c == 'i' || c == 'l' || c == 'o' || c == 'I' || c == 'L' || c == 'O'
  }

  /** The character pool: lowercase, uppercase, digits, symbols, each appended when enabled. */
  function CharacterPool(o: PasswordOptions): (pool: string)
    ensures pool == [] <==> !o.includeLowercase && !o.includeUppercase && !o.includeNumbers && !o.includeSymbols
  {
    var p0 := "";
    var p1 := if o.includeLowercase then p0 + (if o.excludeSimilar then LowerDistinct else LowerAll) else p0;
    var p2 := if o.includeUppercase then p1 + (if o.excludeSimilar then UpperDistinct else UpperAll) else p1;
    var p3 := if o.includeNumbers then p2 + (if o.excludeSimilar then DigitsDistinct else DigitsAll) else p2;
    if o.includeSymbols then p3 + Symbols else p3
  }

  /** No character of `s` is a similar glyph. */
  predicate NoSimilar(s: string) {
    forall i :: 0 <= i < |s| ==> !IsSimilarGlyph(s[i])
  }

  lemma NoSimilarAppend(a: string, b: string)
    requires NoSimilar(a) && NoSimilar(b)
    ensures NoSimilar(a + b)
  {
    forall i | 0 <= i < |a + b| ensures !IsSimilarGlyph((a + b)[i]) {
      if i >= |a| {
        assert (a + b)[i] == b[i - |a|];
      }
    }
  }

  lemma LowerDistinctClean() ensures NoSimilar(LowerDistinct) {}
  lemma UpperDistinctClean() ensures NoSimilar(UpperDistinct) {}
  lemma DigitsDistinctClean() ensures NoSimilar(DigitsDistinct) {}
  lemma SymbolsClean() ensures NoSimilar(Symbols) {}

  /** With `excludeSimilar`, no similar glyph is in the pool. */
  lemma PoolExcludesSimilar(o: PasswordOptions)
    requires o.excludeSimilar
    ensures forall i :: 0 <= i < |CharacterPool(o)| ==> !IsSimilarGlyph(CharacterPool(o)[i])
  {
    LowerDistinctClean();
    UpperDistinctClean();
    DigitsDistinctClean();
    SymbolsClean();
    var p0 := "";
    var p1 := if o.includeLowercase then p0 + LowerDistinct else p0;
    NoSimilarAppend(p0, LowerDistinct);
    var p2 := if o.includeUppercase then p1 + UpperDistinct else p1;
    NoSimilarAppend(p1, UpperDistinct);
    var p3 := if o.includeNumbers then p2 + DigitsDistinct else p2;
    NoSimilarAppend(p2, DigitsDistinct);
    NoSimilarAppend(p3, Symbols);
    assert CharacterPool(o) == if o.includeSymbols then p3 + Symbols else p3;
  }

  /** `generateSecurePassword`: fills in the options left out, builds the
      pool, fails when it is empty, then draws `length` characters from it
      (each draw is an arbitrary index into the pool, standing for
      `Math.floor(Math.random() * chars.length)`). */
  method GenerateSecurePassword(options: GivenOptions) returns (r: Result<string, string>)
    ensures var o := WithDefaults(options);
      r.Failure? <==> !o.includeLowercase && !o.includeUppercase && !o.includeNumbers && !o.includeSymbols
    ensures var o := WithDefaults(options);
      r.Success? ==> |r.value| == (if o.length > 0 then o.length else 0)
    ensures r.Success? ==> forall i :: 0 <= i < |r.value| ==> r.value[i] in CharacterPool(WithDefaults(options))
    ensures r.Success? && WithDefaults(options).excludeSimilar ==>
      forall i :: 0 <= i < |r.value| ==> !IsSimilarGlyph(r.value[i])
    // a field left out keeps its default whatever the others say
    ensures r.Success? && options.length.None? ==> |r.value| == 16
    ensures r.Success? && options.excludeSimilar.None? ==>
      forall i :: 0 <= i < |r.value| ==> !IsSimilarGlyph(r.value[i])
    ensures options.includeLowercase.None? ==> r.Success?
  {
    var o := WithDefaults(options);
    var chars := "";
    if o.includeLowercase {
      chars := chars + (if o.excludeSimilar then LowerDistinct else LowerAll);
    }
    if o.includeUppercase {
      chars := chars + (if o.excludeSimilar then UpperDistinct else UpperAll);
    }
    if o.includeNumbers {
      chars := chars + (if o.excludeSimilar then DigitsDistinct else DigitsAll);
    }
    if o.includeSymbols {
      chars := chars + Symbols;
    }
    assert chars == CharacterPool(o);
    if |chars| == 0 {
      return Failure("少なくとも一つの文字種を選択してください");
    }
    var password := "";
    var i := 0;
    while i < o.length
      invariant 0 <= i && |password| == i
      invariant o.length > 0 ==> i <= o.length
      invariant o.length <= 0 ==> i == 0
      invariant forall k :: 0 <= k < |password| ==> password[k] in chars
    {
      var randomIndex :| 0 <= randomIndex < |chars|;
      password := password + [chars[randomIndex]];
      i := i + 1;
    }
    if o.excludeSimilar {
      PoolExcludesSimilar(o);
    }
    r := Success(password);
  }

  /** `generateSecurePassword()` with no options: 16 characters, none of them a similar glyph. */
  method GenerateDefaultPassword() returns (password: string)
    ensures |password| == 16
    ensures forall i :: 0 <= i < |password| ==> !IsSimilarGlyph(password[i])
  {
    var r := GenerateSecurePassword(NoOptions);
    password := r.value;
  }
}
