/**
 * Client-side security helpers: password strength, e-mail shape, a
 * fixed-window rate limiter, file type and size checks, file extensions and
 * file-name sanitising.
 */
module Security {
  import opened Wrappers
  import opened Text
  import Seqs

  // ---------------------------------------------------------------------
  // Password strength

  datatype Strength = Weak | Medium | Strong

  datatype PasswordValidation = PasswordValidation(isValid: bool, errors: seq<string>, strength: Strength)

  const MinPasswordLength := 10

  const TooShortMessage := "รหัสผ่านต้องมีความยาวอย่างน้อย 10 ตัวอักษร"
  const NoDigitMessage := "รหัสผ่านต้องมีตัวเลขอย่างน้อย 1 ตัว"
  const NoLowerMessage := "รหัสผ่านต้องมีตัวพิมพ์เล็กอย่างน้อย 1 ตัว"
  const NoUpperMessage := "รหัสผ่านต้องมีตัวพิมพ์ใหญ่อย่างน้อย 1 ตัว"
  const NoSpecialMessage := "รหัสผ่านต้องมีตัวอักษรพิเศษอย่างน้อย 1 ตัว"

  /** The characters of the special-character class of the password rule. */
  const SpecialChars := "!@#$%^&*()_+-=[]{};':\"\\|,.<>/?"

  predicate HasMatch(s: string, p: char -> bool) {
    exists i | 0 <= i < |s| :: p(s[i])
  }

  predicate IsSpecial(c: char) { c in SpecialChars }

  /** The five checks, in the order they are made. */
  function PasswordChecks(p: string): (r: seq<bool>)
    ensures |r| == 5
  {
    [Utf16Length(p) >= MinPasswordLength, HasMatch(p, IsDigit), HasMatch(p, IsLower),
     HasMatch(p, IsUpper), HasMatch(p, IsSpecial)]
  }

  function CheckMessages(): seq<string> {
    [TooShortMessage, NoDigitMessage, NoLowerMessage, NoUpperMessage, NoSpecialMessage]
  }

  /** The messages of the failed checks among the first `n`, in check order. */
  function FailedMessages(checks: seq<bool>, n: nat): (r: seq<string>)
    requires n <= |checks| && n <= 5
    ensures |r| <= n
  {
    if n == 0 then []
    else FailedMessages(checks, n - 1) + (if checks[n - 1] then [] else [CheckMessages()[n - 1]])
  }

  /** The number of passed checks among the first `n`. */
  function Passed(checks: seq<bool>, n: nat): nat
    requires n <= |checks|
  {
    if n == 0 then 0 else Passed(checks, n - 1) + (if checks[n - 1] then 1 else 0)
  }

  function StrengthOf(score: int): (s: Strength)
    ensures s == Strong <==> score >= 4
    ensures s == Medium <==> score == 3
  {
    if score >= 4 then Strong else if score >= 3 then Medium else Weak
  }

  /**
   * `validatePassword`: each failed check appends its message, each passed
   * check adds one to the score.
   */
  method ValidatePassword(p: string) returns (r: PasswordValidation)
    ensures r.errors == FailedMessages(PasswordChecks(p), 5)
    ensures r.strength == StrengthOf(Passed(PasswordChecks(p), 5))
    ensures r.isValid <==> |r.errors| == 0
  {
    var checks := PasswordChecks(p);
    var errors: seq<string> := [];
    var score := 0;
    var i := 0;
    while i < 5
      invariant 0 <= i <= 5
      invariant errors == FailedMessages(checks, i)
      invariant score == Passed(checks, i)
    {
      if !checks[i] {
        errors := errors + [CheckMessages()[i]];
      } else {
        score := score + 1;
      }
      i := i + 1;
    }
    r := PasswordValidation(|errors| == 0, errors, StrengthOf(score));
  }

  lemma {:induction false} ScorePlusErrors(checks: seq<bool>, n: nat)
    requires n <= |checks| && n <= 5
    ensures Passed(checks, n) + |FailedMessages(checks, n)| == n
    ensures |FailedMessages(checks, n)| == 0 <==> forall j | 0 <= j < n :: checks[j]
  {
    if n > 0 {
      ScorePlusErrors(checks, n - 1);
    }
  }

  /**
   * A password is valid exactly when all five checks pass; the score and the
   * number of errors add up to five, so a password that fails exactly one
   * check is rated strong and still refused.
   */
  lemma PasswordRules(p: string)
    ensures var c := PasswordChecks(p);
            |FailedMessages(c, 5)| == 0 <==>
            (Utf16Length(p) >= 10 && HasMatch(p, IsDigit) && HasMatch(p, IsLower) && HasMatch(p, IsUpper) && HasMatch(p, IsSpecial))
    ensures Passed(PasswordChecks(p), 5) + |FailedMessages(PasswordChecks(p), 5)| == 5
    ensures |FailedMessages(PasswordChecks(p), 5)| == 1 ==>
            StrengthOf(Passed(PasswordChecks(p), 5)) == Strong
  {
    var c := PasswordChecks(p);
    ScorePlusErrors(c, 5);
    assert (forall j | 0 <= j < 5 :: c[j]) <==> c[0] && c[1] && c[2] && c[3] && c[4];
  }

  // ---------------------------------------------------------------------
  // E-mail shape: one or more characters that are neither whitespace nor
  // '@', an '@', then a domain of such characters with an inner '.'.

  predicate Plain(s: string) {
    forall i | 0 <= i < |s| :: !IsJsWhitespace(s[i]) && s[i] != '@'
  }

  predicate HasInnerDot(d: string) {
    exists k | 0 < k < |d| - 1 :: d[k] == '.'
  }

  /** `s` is `L '@' D` with the '@' at position `i`. */
  predicate EmailSplitAt(s: string, i: int)
    requires 0 <= i < |s|
  {
    s[i] == '@' && 0 < i && Plain(s[..i]) && Plain(s[i + 1..]) && HasInnerDot(s[i + 1..])
  }

  /** The shape the e-mail pattern accepts, as a statement about positions. */
  predicate EmailShape(s: string) {
    exists i | 0 <= i < |s| :: EmailSplitAt(s, i)
  }

  function FirstIndexOf(s: string, c: char): (r: Option<nat>)
    ensures r.Some? ==> r.value < |s| && s[r.value] == c && c !in s[..r.value]
    ensures r.None? ==> c !in s
  {
    if s == [] then None
    else if s[0] == c then Some(0)
    else match FirstIndexOf(s[1..], c)
      case None => None
      case Some(k) => assert s[..k + 1] == [s[0]] + s[1..][..k]; Some(k + 1)
  }

  /** `validateEmail`: the '@' that splits the address is the first one. */
  function ValidateEmail(s: string): (r: bool)
    ensures r <==> EmailShape(s)
  {
    match FirstIndexOf(s, '@')
    case None => false
    case Some(i) =>
      assert EmailShape(s) ==> EmailSplitAt(s, i) by {
        if EmailShape(s) {
          var j :| 0 <= j < |s| && EmailSplitAt(s, j);
        }
      }
      EmailSplitAt(s, i)
  }

  // ---------------------------------------------------------------------
  // Rate limiting: one record per key, counting requests in a window that
  // ends at `resetTime`.

  datatype RateRecord = RateRecord(count: int, resetTime: int)

  /** The decision and the new store for one `checkRateLimit` call at time `now`. */
  function Admit(store: map<string, RateRecord>, key: string, maxRequests: int, windowMs: int, now: int)
    : (r: (bool, map<string, RateRecord>))
    ensures key !in store || now > store[key].resetTime ==>
            r == (true, store[key := RateRecord(1, now + windowMs)])
    ensures key in store && now <= store[key].resetTime && store[key].count >= maxRequests ==>
            r == (false, store)
    ensures key in store && now <= store[key].resetTime && store[key].count < maxRequests ==>
            r == (true, store[key := RateRecord(store[key].count + 1, store[key].resetTime)])
    ensures forall k | k != key :: (k in r.1 <==> k in store) && (k in store ==> r.1[k] == store[k])
  {
    if key !in store || now > store[key].resetTime then (true, store[key := RateRecord(1, now + windowMs)])
    else if store[key].count >= maxRequests then (false, store)
    else (true, store[key := store[key].(count := store[key].count + 1)])
  }

  class RateLimiter {
    var store: map<string, RateRecord>

    constructor()
      ensures store == map[]
    {
      store := map[];
    }

    /** `checkRateLimit(key, maxRequests, windowMs)` with the clock read as `now`. */
    method CheckRateLimit(key: string, maxRequests: int, windowMs: int, now: int) returns (allowed: bool)
      modifies this
      ensures (allowed, store) == Admit(old(store), key, maxRequests, windowMs, now)
    {
      if key !in store || now > store[key].resetTime {
        store := store[key := RateRecord(1, now + windowMs)];
        return true;
      }
      var record := store[key];
      if record.count >= maxRequests {
        return false;
      }
      store := store[key := record.(count := record.count + 1)];
      allowed := true;
    }
  }

  /** The number of requests granted, and the final store, for requests at `times`. */
  function Replay(store: map<string, RateRecord>, key: string, maxRequests: int, windowMs: int, times: seq<int>)
    : (nat, map<string, RateRecord>)
    decreases |times|
  {
    if times == [] then (0, store)
    else
      var step := Admit(store, key, maxRequests, windowMs, times[0]);
      var rest := Replay(step.1, key, maxRequests, windowMs, times[1..]);
      ((if step.0 then 1 else 0) + rest.0, rest.1)
  }

  function Max(a: int, b: int): int { if a < b then b else a }
  function Min(a: int, b: int): int { if a < b then a else b }

  /**
   * Within one window, requests are granted until the count reaches the
   * maximum: exactly `min(|times|, max(0, maxRequests - count))` of them.
   */
  lemma {:induction false} GrantsWithinWindow(store: map<string, RateRecord>, key: string, maxRequests: int,
                                              windowMs: int, times: seq<int>)
    requires key in store
    requires forall j | 0 <= j < |times| :: times[j] <= store[key].resetTime
    ensures Replay(store, key, maxRequests, windowMs, times).0 ==
            Min(|times|, Max(0, maxRequests - store[key].count))
    ensures var after := Replay(store, key, maxRequests, windowMs, times).1;
            key in after && after[key].resetTime == store[key].resetTime
  {
    if times != [] {
      var step := Admit(store, key, maxRequests, windowMs, times[0]);
      GrantsWithinWindow(step.1, key, maxRequests, windowMs, times[1..]);
    }
  }

  /** A window that starts afresh grants `min(|times|, max(1, maxRequests))` requests. */
  lemma FreshWindowGrants(store: map<string, RateRecord>, key: string, maxRequests: int,
                          windowMs: int, times: seq<int>)
    requires |times| > 0
    requires key !in store || times[0] > store[key].resetTime
    requires forall j | 0 <= j < |times| :: times[0] <= times[j] <= times[0] + windowMs
    ensures Replay(store, key, maxRequests, windowMs, times).0 == Min(|times|, Max(1, maxRequests))
  {
    var step := Admit(store, key, maxRequests, windowMs, times[0]);
    GrantsWithinWindow(step.1, key, maxRequests, windowMs, times[1..]);
  }

  // ---------------------------------------------------------------------
  // Files

  datatype FileInfo = FileInfo(name: string, mimeType: string, size: int)

  const AllowedEvidenceTypes: seq<string> := [
    "application/pdf",
    "application/vnd.openxmlformats-officedocument.wordprocessingml.document",
    "image/png",
    "image/jpeg",
    "image/jpg"
  ]

  /** Ten mebibytes. */
  const MaxFileSize := 10 * 1024 * 1024

  function ValidateFileType(file: FileInfo, allowedTypes: seq<string>): (r: bool)
    ensures r <==> exists i | 0 <= i < |allowedTypes| :: allowedTypes[i] == file.mimeType
  {
    file.mimeType in allowedTypes
  }

  function ValidateFileSize(file: FileInfo, maxSizeBytes: int): (r: bool)
    ensures r <==> !(file.size > maxSizeBytes)
  {
    file.size <= maxSizeBytes
  }

  /** The text after the last '.', or all of `s` when it has none. */
  function AfterLastDot(s: string): (r: string)
    ensures '.' !in r
    ensures |r| <= |s| && r == s[|s| - |r|..]
    ensures |r| < |s| ==> s[|s| - |r| - 1] == '.'
  {
    if s == [] then []
    else if s[|s| - 1] == '.' then []
    else AfterLastDot(s[..|s| - 1]) + [s[|s| - 1]]
  }

  /** `getFileExtension`: the lower-cased last '.'-separated segment. */
  function GetFileExtension(filename: string): (r: string)
    ensures '.' !in r
    ensures '.' !in filename ==> r == ToLower(filename)
  {
    var ext := AfterLastDot(filename);
    assert '.' !in filename ==> ext == filename;
    ToLower(ext)
  }

  /** The extension of `base + "." + ext` is `ext`, lower-cased, whenever `ext` holds no '.'. */
  lemma {:induction false} ExtensionAfterLastDot(base: string, ext: string)
    requires '.' !in ext
    ensures GetFileExtension(base + "." + ext) == ToLower(ext)
  {
    AfterLastDotSuffix(base + ".", ext);
    assert base + "." + ext == (base + ".") + ext;
  }

  lemma {:induction false} AfterLastDotSuffix(prefix: string, ext: string)
    requires |prefix| > 0 && prefix[|prefix| - 1] == '.'
    requires '.' !in ext
    ensures AfterLastDot(prefix + ext) == ext
  {
    if ext != [] {
      var s := prefix + ext;
      assert s[..|s| - 1] == prefix + ext[..|ext| - 1];
      AfterLastDotSuffix(prefix, ext[..|ext| - 1]);
      assert ext == ext[..|ext| - 1] + [ext[|ext| - 1]];
    } else {
      assert prefix + ext == prefix;
    }
  }

  // ---------------------------------------------------------------------
  // File-name sanitising

  predicate IsSafeFilenameChar(c: char) {
    IsUpper(c) || IsLower(c) || IsDigit(c) || c == '.' || c == '_' || c == '-'
  }

  predicate AllSafe(s: string) {
    forall i | 0 <= i < |s| :: IsSafeFilenameChar(s[i])
  }

  predicate NoDoubleUnderscore(s: string) {
    forall i | 0 <= i < |s| - 1 :: !(s[i] == '_' && s[i + 1] == '_')
  }

  /** Every character outside the safe set becomes '_'. */
  function ReplaceUnsafe(s: string): (r: string)
    ensures |r| == |s| && AllSafe(r)
    ensures forall i | 0 <= i < |s| :: r[i] == if IsSafeFilenameChar(s[i]) then s[i] else '_'
  {
    if s == [] then [] else [if IsSafeFilenameChar(s[0]) then s[0] else '_'] + ReplaceUnsafe(s[1..])
  }

  /** Every run of two or more '_' becomes a single '_'. */
  function CollapseUnderscores(s: string): (r: string)
    ensures |r| <= |s|
    ensures |s| > 0 ==> |r| > 0 && r[0] == s[0]
  {
    if |s| < 2 then s
    else if s[0] == '_' && s[1] == '_' then CollapseUnderscores(s[1..])
    else [s[0]] + CollapseUnderscores(s[1..])
  }

  const MaxFilenameLength := 255

  /** `sanitizeFilename`. */
  function SanitizeFilename(filename: string): (r: string)
    ensures |r| <= MaxFilenameLength
  {
    var collapsed := CollapseUnderscores(ReplaceUnsafe(filename));
    if |collapsed| <= MaxFilenameLength then collapsed else collapsed[..MaxFilenameLength]
  }

  lemma {:induction false} CollapseKeepsSafe(s: string)
    requires AllSafe(s)
    ensures AllSafe(CollapseUnderscores(s))
  {
    if |s| >= 2 {
      CollapseKeepsSafe(s[1..]);
    }
  }

  lemma {:induction false} CollapseHasNoDouble(s: string)
    ensures NoDoubleUnderscore(CollapseUnderscores(s))
  {
    if |s| >= 2 {
      CollapseHasNoDouble(s[1..]);
      if !(s[0] == '_' && s[1] == '_') {
        var t := CollapseUnderscores(s[1..]);
        assert t[0] == s[1];
      }
    }
  }

  lemma {:induction false} CollapseIdentity(s: string)
    requires NoDoubleUnderscore(s)
    ensures CollapseUnderscores(s) == s
  {
    if |s| >= 2 {
      assert NoDoubleUnderscore(s[1..]) by {
        forall i | 0 <= i < |s[1..]| - 1
          ensures !(s[1..][i] == '_' && s[1..][i + 1] == '_')
        {
          assert s[1..][i] == s[i + 1] && s[1..][i + 1] == s[i + 2];
        }
      }
      CollapseIdentity(s[1..]);
    }
  }

  predicate NotUnderscore(c: char) { c != '_' }

  /** Collapsing removes only '_': every other character survives, in order. */
  lemma {:induction false} CollapseKeepsOthers(s: string)
    ensures Seqs.Filter(CollapseUnderscores(s), NotUnderscore) == Seqs.Filter(s, NotUnderscore)
  {
    if |s| >= 2 {
      CollapseKeepsOthers(s[1..]);
      if !(s[0] == '_' && s[1] == '_') {
        var t := CollapseUnderscores(s[1..]);
        assert ([s[0]] + t)[0] == s[0] && ([s[0]] + t)[1..] == t;
      }
    }
  }

  /** Two '_' in a row collapse as one does, so every run of them ends as a single '_'. */
  lemma {:induction false} CollapseRun(a: string, b: string)
    ensures CollapseUnderscores(a + "__" + b) == CollapseUnderscores(a + "_" + b)
  {
    var s, t := a + "__" + b, a + "_" + b;
    if a == [] {
      assert s[1..] == t;
    } else {
      assert s[0] == t[0] == a[0];
      assert s[1] == t[1];
      assert s[1..] == a[1..] + "__" + b && t[1..] == a[1..] + "_" + b;
      CollapseRun(a[1..], b);
    }
  }

  lemma {:induction false} ReplaceIdentity(s: string)
    requires AllSafe(s)
    ensures ReplaceUnsafe(s) == s
  {
  }

  /**
   * A sanitised name holds only safe characters, no "__", at most 255
   * characters, and sanitising it again changes nothing.
   */
  lemma SanitizeFilenameProperties(filename: string)
    ensures AllSafe(SanitizeFilename(filename))
    ensures NoDoubleUnderscore(SanitizeFilename(filename))
    ensures SanitizeFilename(SanitizeFilename(filename)) == SanitizeFilename(filename)
  {
    var collapsed := CollapseUnderscores(ReplaceUnsafe(filename));
    CollapseKeepsSafe(ReplaceUnsafe(filename));
    CollapseHasNoDouble(ReplaceUnsafe(filename));
    var r := SanitizeFilename(filename);
    assert r == collapsed[..|r|];
    assert AllSafe(r);
    assert NoDoubleUnderscore(r) by {
      forall i | 0 <= i < |r| - 1
        ensures !(r[i] == '_' && r[i + 1] == '_')
      {
        assert r[i] == collapsed[i] && r[i + 1] == collapsed[i + 1];
      }
    }
    ReplaceIdentity(r);
    CollapseIdentity(r);
  }
}
