/** The shared string and collection helpers: truncation, masking of e-mail
    addresses and passwords, the e-mail syntax check, the display width of
    Japanese text, relative times, shuffling and the list search filter. */
module Utils {
  import opened Text

  // ---------------------------------------------------------------- truncate

  const Ellipsis := "..."

  /** `str.substring(0, end)`: JavaScript clamps the end into the string. */
  function Head(str: string, end: int): (r: string)
    ensures r <= str
    ensures |r| == if end < 0 then 0 else if end > |str| then |str| else end
  {
    if end < 0 then "" else if end > |str| then str else str[..end]
  }

  /** `truncateString`: a string within the limit is returned unchanged; a
      longer one is cut so that, with the suffix appended, it is exactly the
      limit long (or, when the suffix alone is longer than the limit, is just
      the suffix). */
  function TruncateString(str: string, maxLength: int, suffix: string): (r: string)
    ensures |str| <= maxLength ==> r == str
    ensures |str| > maxLength ==>
      |r| >= |suffix| && r[|r| - |suffix|..] == suffix && r[..|r| - |suffix|] <= str
    ensures |str| > maxLength && maxLength >= |suffix| ==> |r| == maxLength
    ensures |str| > maxLength && maxLength < |suffix| ==> r == suffix
  {
    if |str| <= maxLength then str
    else
      var r := Head(str, maxLength - |suffix|) + suffix;
      assert r[..|r| - |suffix|] == Head(str, maxLength - |suffix|);
      r
  }

  /** With the default suffix `'...'`, a string over a limit of at least
      three is cut to exactly the limit: its first `maxLength - 3` characters
      followed by the three dots. */
  lemma TruncateDefaultSuffix(str: string, maxLength: int)
    requires |str| > maxLength >= |Ellipsis|
    ensures var r := TruncateString(str, maxLength, Ellipsis);
      |r| == maxLength && r[maxLength - 3..] == "..." && r[..maxLength - 3] == str[..maxLength - 3]
  {
  }

  /** Truncating twice with the same limit and suffix changes nothing more. */
  lemma TruncateIdempotent(str: string, maxLength: int, suffix: string)
    ensures var once := TruncateString(str, maxLength, suffix);
      TruncateString(once, maxLength, suffix) == once
  {
    var once := TruncateString(str, maxLength, suffix);
    if |str| > maxLength && maxLength < |suffix| && |once| > maxLength {
      assert Head(once, maxLength - |suffix|) == "";
    }
  }

  // -------------------------------------------------------------- mask email

  /** `maskEmail`: the address is split at '@'; the first piece is the user
      name and the second the domain (any further pieces are dropped).  With
      either empty the address is returned as it is; otherwise the user name
      keeps its first character (and, when longer than two, its last), the
      rest replaced by '*'. */
  function MaskEmail(email: string): (r: string)
    ensures '@' !in email ==> r == email
    ensures r != email ==> |r| >= 3 && r[0] == email[0] && r[1] == '*' && '@' in r
  {
    var parts := Split(email, '@');
    MaskParts(email, parts[0], if |parts| > 1 then parts[1] else "")
  }

  function MaskParts(email: string, username: string, domain: string): string {
    if username == "" || domain == "" then email
    else if |username| <= 2 then [username[0]] + "*@" + domain
    else [username[0]] + Repeat('*', |username| - 2) + [username[|username| - 1]] + "@" + domain
  }

  /** An address with one '@' between a non-empty user name and domain:
      the domain and '@' are kept, the first character of the name is kept,
      a name of one or two characters becomes that character and one '*',
      and a longer name keeps its length and last character with every
      character between them hidden. */
  lemma MaskEmailShape(username: string, domain: string)
    requires username != "" && domain != ""
    requires '@' !in username && '@' !in domain
    ensures var r := MaskEmail(username + "@" + domain);
      && |r| == (if |username| <= 2 then 2 else |username|) + 1 + |domain|
      && r[|r| - |domain| - 1..] == "@" + domain
      && r[0] == username[0]
      && (|username| <= 2 ==> r[1] == '*')
      && (|username| > 2 ==>
            r[|username| - 1] == username[|username| - 1]
            && forall i :: 0 < i < |username| - 1 ==> r[i] == '*')
  {
    var email := username + "@" + domain;
    SplitAfter(username, domain, '@');
    assert Split(domain, '@') == [domain];
    assert MaskEmail(email) == MaskParts(email, username, domain);
    MaskPartsShape(email, username, domain);
  }

  lemma MaskPartsShape(email: string, username: string, domain: string)
    requires username != "" && domain != ""
    ensures var r := MaskParts(email, username, domain);
      && |r| == (if |username| <= 2 then 2 else |username|) + 1 + |domain|
      && r[|r| - |domain| - 1..] == "@" + domain
      && r[0] == username[0]
      && (|username| <= 2 ==> r[1] == '*')
      && (|username| > 2 ==>
            r[|username| - 1] == username[|username| - 1]
            && forall i :: 0 < i < |username| - 1 ==> r[i] == '*')
  {
    var r := MaskParts(email, username, domain);
    if |username| > 2 {
      var stars := Repeat('*', |username| - 2);
      var name := [username[0]] + stars + [username[|username| - 1]];
      assert r == name + "@" + domain;
      assert r[..|name|] == name;
      assert r[|r| - |domain| - 1..] == "@" + domain;
      forall i | 0 < i < |username| - 1 ensures r[i] == '*' {
        assert r[i] == name[i] == stars[i - 1];
      }
    } else {
      assert r == [username[0]] + "*@" + domain;
      assert r[|r| - |domain| - 1..] == "@" + domain;
    }
  }

  /** An address without '@' is returned unchanged. */
  lemma MaskEmailWithoutAt(email: string)
    requires '@' !in email
    ensures MaskEmail(email) == email
  {
    assert Split(email, '@') == [email];
  }

  /** An address with nothing before its first '@' is returned unchanged. */
  lemma MaskEmailEmptyUser(email: string)
    requires |email| > 0 && email[0] == '@'
    ensures MaskEmail(email) == email
  {
    assert Split(email, '@')[0] == "";
  }

  /** An address whose only '@' is its last character is returned unchanged. */
  lemma MaskEmailEmptyDomain(email: string)
    requires |email| > 0 && IndexOf(email, '@') == |email| - 1
    ensures MaskEmail(email) == email
  {
    var k := |email| - 1;
    assert email[k + 1..] == "";
    assert Split("", '@') == [""];
    assert Split(email, '@') == [email[..k]] + Split(email[k + 1..], '@');
  }

  /** Everything from a second '@' on is dropped from the masked address. */
  lemma MaskEmailDropsTail(username: string, domain: string, tail: string)
    requires username != "" && domain != ""
    requires '@' !in username && '@' !in domain
    ensures MaskEmail(username + "@" + domain + "@" + tail) == MaskEmail(username + "@" + domain)
  {
    var long := username + "@" + (domain + "@" + tail);
    var short := username + "@" + domain;
    assert username + "@" + domain + "@" + tail == long;
    SplitAfter(username, domain + "@" + tail, '@');
    SplitAfter(domain, tail, '@');
    var p1 := Split(long, '@');
    assert p1[0] == username && p1[1] == domain;
    SplitAfter(username, domain, '@');
    assert Split(domain, '@') == [domain];
    assert Split(short, '@') == [username, domain];
    assert MaskEmail(long) == MaskParts(long, username, domain);
    assert MaskEmail(short) == MaskParts(short, username, domain);
  }

  // ----------------------------------------------------------- mask password

  /** `s.slice(start)`: a negative start counts back from the end; `-0` is 0. */
  function SliceFrom(s: string, start: int): (r: string)
    ensures start < 0 && -start <= |s| ==> r == s[|s| + start..]
    ensures start >= 0 && start <= |s| ==> r == s[start..]
  {
    if start < 0 then (if |s| + start < 0 then s else s[|s| + start..])
    else if start > |s| then "" else s[start..]
  }

  /** `maskPassword` as written: `password.slice(-visibleChars)` with no
      visible characters is `slice(0)`, the whole password. */
  function MaskPasswordAsWritten(password: string, visibleChars: int): (r: string)
    ensures visibleChars > 0 ==> r == MaskPassword(password, visibleChars)
    // no positive count: the output is never shorter than twice the password
    ensures visibleChars <= 0 ==> |r| >= 2 * |password|
  {
    if |password| <= visibleChars then Repeat('*', |password|)
    else Repeat('*', |password| - visibleChars) + SliceFrom(password, -visibleChars)
  }

  /** With no visible characters a non-empty password is shown in full,
      after as many '*' as it is long. */
  lemma MaskPasswordZeroShowsAll(password: string)
    requires password != ""
    ensures MaskPasswordAsWritten(password, 0) == Repeat('*', |password|) + password
    ensures |MaskPasswordAsWritten(password, 0)| == 2 * |password|
  {
  }

  lemma MaskPasswordZeroExample()
    ensures MaskPasswordAsWritten("secret", 0) == "******secret"
  {
    MaskPasswordZeroShowsAll("secret");
  }

  /** `maskPassword` as intended: as long as the password, with at most the
      last `visibleChars` characters shown (none when the count is zero or
      negative, and none when the password is not longer than the count). */
  function MaskPassword(password: string, visibleChars: int): (r: string)
    ensures |r| == |password|
    ensures forall i :: 0 <= i < |r| ==>
      r[i] == if |password| > visibleChars && i >= |password| - visibleChars then password[i] else '*'
  {
    if |password| <= visibleChars then Repeat('*', |password|)
    else
      var shown := if visibleChars < 0 then 0 else visibleChars;
      Repeat('*', |password| - shown) + password[|password| - shown..]
  }

  /** The default shows the last four characters of a longer password. */
  const DefaultVisibleChars := 4

  /** With the default count, the code as written masks as intended: a
      password of more than four characters shows exactly its last four, a
      shorter one is all '*'. */
  lemma MaskPasswordDefault(password: string)
    ensures var r := MaskPasswordAsWritten(password, DefaultVisibleChars);
      && r == MaskPassword(password, DefaultVisibleChars)
      && |r| == |password|
      && (|password| > 4 ==>
            r[|password| - 4..] == password[|password| - 4..] && r[..|password| - 4] == Repeat('*', |password| - 4))
      && (|password| <= 4 ==> r == Repeat('*', |password|))
  {
    MaskPasswordAgrees(password, DefaultVisibleChars);
  }

  /** For a positive count the code as written already behaves as intended. */
  lemma MaskPasswordAgrees(password: string, visibleChars: int)
    requires visibleChars > 0
    ensures MaskPasswordAsWritten(password, visibleChars) == MaskPassword(password, visibleChars)
  {
  }

  // ------------------------------------------------------------ e-mail check

  /** A character of the class `[^\s@]`. */
  predicate Plain(c: char) {
    !IsWhitespace(c) && c != '@'
  }

  /** One or more characters of `[^\s@]`. */
  predicate PlainRun(s: string) {
    |s| > 0 && forall k :: 0 <= k < |s| ==> Plain(s[k])
  }

  /** `isValidEmail`: the whole string matches `[^\s@]+@[^\s@]+\.[^\s@]+`,
      i.e. splits as a plain run, '@', a plain run, '.', a plain run. */
  predicate IsValidEmail(email: string)
    ensures IsValidEmail(email) ==>
      |email| >= 5 && '@' in email && Plain(email[0]) && Plain(email[|email| - 1])
  {
    exists at, dot | 0 <= at < dot < |email| ::
      email[at] == '@' && email[dot] == '.'
      && PlainRun(email[..at]) && PlainRun(email[at + 1..dot]) && PlainRun(email[dot + 1..])
  }

  /** A '.' strictly inside the string. */
  predicate DotInside(d: string) {
    exists j :: 0 < j < |d| - 1 && d[j] == '.'
  }

  /** The shape of a valid address stated without the pattern: no
      whitespace, exactly one '@' with something before it, and a '.' inside
      the part after it. */
  predicate EmailShape(email: string) {
    var at := IndexOf(email, '@');
    && (forall k :: 0 <= k < |email| ==> !IsWhitespace(email[k]))
    && at > 0
    && '@' !in email[at + 1..]
    && DotInside(email[at + 1..])
  }

  lemma ValidEmailHasShape(email: string, at: int, dot: int)
    requires 0 <= at < dot < |email|
    requires email[at] == '@' && email[dot] == '.'
    requires PlainRun(email[..at]) && PlainRun(email[at + 1..dot]) && PlainRun(email[dot + 1..])
    ensures EmailShape(email)
  {
    forall k | 0 <= k < |email|
      ensures !IsWhitespace(email[k]) && (k != at ==> email[k] != '@')
    {
      if k < at {
        assert email[..at][k] == email[k];
      } else if at < k < dot {
        assert email[at + 1..dot][k - at - 1] == email[k];
      } else if dot < k {
        assert email[dot + 1..][k - dot - 1] == email[k];
      }
    }
    IndexOfAt(email, '@', at);
    var rest := email[at + 1..];
    assert rest[dot - at - 1] == '.';
  }

  lemma ShapedEmailIsValid(email: string)
    requires EmailShape(email)
    ensures IsValidEmail(email)
  {
    var at := IndexOf(email, '@');
    var rest := email[at + 1..];
    var j :| 0 < j < |rest| - 1 && rest[j] == '.';
    var dot := at + 1 + j;
    assert email[dot] == '.';
    forall k | 0 <= k < at ensures Plain(email[..at][k]) {
      assert email[..at][k] == email[k];
    }
    var domainName, topLevel := email[at + 1..dot], email[dot + 1..];
    forall k | 0 <= k < |domainName| ensures Plain(domainName[k]) {
      assert domainName[k] == rest[k];
    }
    forall k | 0 <= k < |topLevel| ensures Plain(topLevel[k]) {
      assert topLevel[k] == rest[j + 1 + k];
    }
  }

  /** The pattern accepts exactly the strings of that shape. */
  lemma ValidEmailIffShape(email: string)
    ensures IsValidEmail(email) <==> EmailShape(email)
  {
    if IsValidEmail(email) {
      var at, dot :| 0 <= at < dot < |email| && email[at] == '@' && email[dot] == '.'
        && PlainRun(email[..at]) && PlainRun(email[at + 1..dot]) && PlainRun(email[dot + 1..]);
      ValidEmailHasShape(email, at, dot);
    }
    if EmailShape(email) {
      ShapedEmailIsValid(email);
    }
  }

  // ----------------------------------------------------------- display width

  /** The half-width code ranges of `getStringLength`. */
  predicate HalfWidth(code: int) {
    (0x0 <= code < 0x81) || code == 0xf8f0 || (0xff61 <= code < 0xffa0) || (0xf8f1 <= code < 0xf8f4)
  }

  /** The UTF-16 code units of a character: two for one outside the Basic
      Multilingual Plane. */
  function CodeUnits(c: char): nat {
    if c as int > 0xFFFF then 2 else 1
  }

  /** The width counted for a character: 1 per half-width code unit, 2 per
      other code unit (the two surrogates of an astral character are never
      half-width). */
  function CharWidth(c: char): nat {
    if c as int > 0xFFFF then 4 else if HalfWidth(c as int) then 1 else 2
  }

  /** JavaScript's `length`: the number of UTF-16 code units. */
  function Utf16Length(s: string): nat {
    if s == [] then 0 else Utf16Length(s[..|s| - 1]) + CodeUnits(s[|s| - 1])
  }

  function DisplayWidth(s: string): nat {
    if s == [] then 0 else DisplayWidth(s[..|s| - 1]) + CharWidth(s[|s| - 1])
  }

  /** `getStringLength`: the display width, one column per half-width code
      unit and two per full-width one. */
  method GetStringLength(str: string) returns (length: nat)
    ensures length == DisplayWidth(str)
  {
    length := 0;
    var i := 0;
    while i < |str|
      invariant 0 <= i <= |str|
      invariant length == DisplayWidth(str[..i])
    {
      assert str[..i + 1][..i] == str[..i];
      length := length + CharWidth(str[i]);
      i := i + 1;
    }
    assert str[..i] == str;
  }

  /** The width is between the length and twice the length, and equals the
      length exactly when every character is a half-width one. */
  lemma {:induction false} WidthBounds(s: string)
    ensures Utf16Length(s) <= DisplayWidth(s) <= 2 * Utf16Length(s)
    ensures DisplayWidth(s) == Utf16Length(s) <==>
      forall i :: 0 <= i < |s| ==> s[i] as int <= 0xFFFF && HalfWidth(s[i] as int)
    decreases |s|
  {
    if s != [] {
      var init := s[..|s| - 1];
      WidthBounds(init);
      if DisplayWidth(s) == Utf16Length(s) {
        forall i | 0 <= i < |s| ensures s[i] as int <= 0xFFFF && HalfWidth(s[i] as int) {
          if i < |s| - 1 {
            assert s[i] == init[i];
          }
        }
      }
      if forall i :: 0 <= i < |s| ==> s[i] as int <= 0xFFFF && HalfWidth(s[i] as int) {
        forall i | 0 <= i < |init| ensures init[i] as int <= 0xFFFF && HalfWidth(init[i] as int) {
          assert init[i] == s[i];
        }
      }
    }
  }

  /** A string of ASCII characters (below 0x81) is as wide as it is long. */
  lemma AsciiWidth(s: string)
    requires forall i :: 0 <= i < |s| ==> s[i] as int < 0x81
    ensures DisplayWidth(s) == Utf16Length(s) == |s|
  {
    WidthBounds(s);
    AsciiLength(s);
  }

  lemma {:induction false} AsciiLength(s: string)
    requires forall i :: 0 <= i < |s| ==> s[i] as int <= 0xFFFF
    ensures Utf16Length(s) == |s|
    decreases |s|
  {
    if s != [] {
      var init := s[..|s| - 1];
      forall i | 0 <= i < |init| ensures init[i] as int <= 0xFFFF {
        assert init[i] == s[i];
      }
      AsciiLength(init);
    }
  }

  // ----------------------------------------------------------- relative time

  /** How long ago something happened, as `formatRelativeTime` words it. */
  datatype Ago =
    | JustNow
    | MinutesAgo(n: nat)
    | HoursAgo(n: nat)
    | DaysAgo(n: nat)
    | WeeksAgo(n: nat)
    | MonthsAgo(n: nat)
    | YearsAgo(n: nat)

  const SecondsPerDay := 86400

  /** Minutes of whole seconds, then hours of whole minutes, then days of
      whole hours, are the seconds divided by an hour and by a day. */
  lemma NestedQuotients(d: int)
    ensures d / 60 / 60 == d / 3600
    ensures d / 3600 / 24 == d / SecondsPerDay
  {
  }

  /** The buckets of `formatRelativeTime`, taken in turn: minutes, hours and
      days as floor quotients, weeks up to 30 days, months (of 30 days) up to
      365 days, and years (of 365 days) beyond. */
  function RelativeBucket(diffInSeconds: int): (a: Ago)
    ensures a.JustNow? <==> diffInSeconds < 60
    ensures a.MinutesAgo? <==> 60 <= diffInSeconds < 3600
    ensures a.MinutesAgo? ==> a.n == diffInSeconds / 60
    ensures a.HoursAgo? <==> 3600 <= diffInSeconds < SecondsPerDay
    ensures a.HoursAgo? ==> a.n == diffInSeconds / 3600
    ensures a.DaysAgo? <==> SecondsPerDay <= diffInSeconds < 7 * SecondsPerDay
    ensures a.DaysAgo? ==> a.n == diffInSeconds / SecondsPerDay
    ensures a.WeeksAgo? <==> 7 * SecondsPerDay <= diffInSeconds < 30 * SecondsPerDay
    ensures a.WeeksAgo? ==> a.n == diffInSeconds / SecondsPerDay / 7
    ensures a.MonthsAgo? <==> 30 * SecondsPerDay <= diffInSeconds < 365 * SecondsPerDay
    ensures a.MonthsAgo? ==> a.n == diffInSeconds / SecondsPerDay / 30
    ensures a.YearsAgo? <==> 365 * SecondsPerDay <= diffInSeconds
    ensures a.YearsAgo? ==> a.n == diffInSeconds / SecondsPerDay / 365
  {
    if diffInSeconds < 60 then JustNow
    else
      var minutes := diffInSeconds / 60;
      if minutes < 60 then MinutesAgo(minutes)
      else
        var hours := minutes / 60;
        NestedQuotients(diffInSeconds);
        if hours < 24 then HoursAgo(hours)
        else
          var days := hours / 24;
          if days < 7 then DaysAgo(days)
          else if days < 30 then WeeksAgo(days / 7)
          else if days < 365 then MonthsAgo(days / 30)
          else YearsAgo(days / 365)
  }

  function AgoText(a: Ago): string {
    match a
    case JustNow => "たった今"
    case MinutesAgo(n) => NatToString(n) + "分前"
    case HoursAgo(n) => NatToString(n) + "時間前"
    case DaysAgo(n) => NatToString(n) + "日前"
    case WeeksAgo(n) => NatToString(n) + "週間前"
    case MonthsAgo(n) => NatToString(n) + "ヶ月前"
    case YearsAgo(n) => NatToString(n) + "年前"
  }

  /** `formatRelativeTime` for a moment `thenMs` seen at `nowMs` (both in
      milliseconds): the difference floored to whole seconds, then bucketed.
      Less than a minute, including a moment in the future, reads "just now";
      anything else starts with its count. */
  function FormatRelativeTime(thenMs: int, nowMs: int): (r: string)
    ensures r == "たった今" <==> nowMs - thenMs < 60000
    ensures nowMs - thenMs >= 60000 ==> |r| > 0 && IsDigit(r[0])
  {
    var a := RelativeBucket((nowMs - thenMs) / 1000);
    AgoTextStartsWithCount(a);
    AgoText(a)
  }

  /** Every wording but "just now" starts with the count's digits. */
  lemma AgoTextStartsWithCount(a: Ago)
    ensures !a.JustNow? ==> |AgoText(a)| > 0 && IsDigit(AgoText(a)[0])
    ensures AgoText(a) == "たった今" <==> a.JustNow?
  {
    if !a.JustNow? {
      assert AgoText(a)[0] == NatToString(a.n)[0];
    }
  }

  // ----------------------------------------------------------------- shuffle

  /** `shuffleArray`: a Fisher–Yates shuffle of a copy; each swap partner is
      any index up to the current one (the random draw). */
  method ShuffleArray<T>(input: array<T>) returns (shuffled: array<T>)
    ensures fresh(shuffled)
    ensures multiset(shuffled[..]) == multiset(input[..])
    ensures input[..] == old(input[..])
  {
    shuffled := new T[input.Length](i requires 0 <= i < input.Length reads input => input[i]);
    assert shuffled[..] == input[..];
    var i := shuffled.Length - 1;
    while i > 0
      invariant i < shuffled.Length
      invariant multiset(shuffled[..]) == multiset(input[..])
      decreases i
    {
      var j :| 0 <= j <= i;
      shuffled[i], shuffled[j] := shuffled[j], shuffled[i];
      i := i - 1;
    }
  }

  // ------------------------------------------------------------ search filter

  /** The value an item holds under a key, as far as the filter cares. */
  datatype FieldValue = Str(s: string) | Num(n: int) | Other

  type Item = map<string, FieldValue>

  /** The test for one key: a string value that, lower-cased, contains the
      term; a number whose decimal form contains it; nothing else. */
  predicate FieldMatches(item: Item, key: string, term: string) {
    key in item &&
    match item[key]
    case Str(v) => Includes(Lower(v), term)
    case Num(n) => Includes(IntToString(n), term)
    case Other => false
  }

  /** `searchKeys.some(...)`. */
  predicate AnyKeyMatches(item: Item, keys: seq<string>, term: string) {
    exists i :: 0 <= i < |keys| && FieldMatches(item, keys[i], term)
  }

  /** `items.filter(...)`. */
  function FilterItems(items: seq<Item>, keys: seq<string>, term: string): seq<Item> {
    if items == [] then []
    else
      var head := if AnyKeyMatches(items[0], keys, term) then [items[0]] else [];
      head + FilterItems(items[1..], keys, term)
  }

  /** `createSearchFilter`: every item for an empty term, otherwise the items
      some key of which matches the lower-cased term. */
  function CreateSearchFilter(items: seq<Item>, searchTerm: string, searchKeys: seq<string>): (r: seq<Item>)
    ensures searchTerm == "" ==> r == items
    ensures searchTerm != "" ==>
      forall x :: x in r <==> x in items && AnyKeyMatches(x, searchKeys, Lower(searchTerm))
    // the matching items in their original order, each as often as it occurs
    ensures searchTerm != "" ==> r == FilterItems(items, searchKeys, Lower(searchTerm))
  {
    if searchTerm == "" then items
    else
      FilterMembers(items, searchKeys, Lower(searchTerm));
      FilterItems(items, searchKeys, Lower(searchTerm))
  }

  /** The filter keeps exactly the matching items. */
  lemma {:induction false} FilterMembers(items: seq<Item>, keys: seq<string>, term: string)
    ensures forall x :: x in FilterItems(items, keys, term) <==> x in items && AnyKeyMatches(x, keys, term)
    decreases |items|
  {
    if items != [] {
      FilterMembers(items[1..], keys, term);
      assert items == [items[0]] + items[1..];
    }
  }

  /** The filter keeps every matching item as often as it occurs and drops
      every other one. */
  lemma {:induction false} FilterCounts(items: seq<Item>, keys: seq<string>, term: string, x: Item)
    ensures multiset(FilterItems(items, keys, term))[x] ==
      if AnyKeyMatches(x, keys, term) then multiset(items)[x] else 0
    decreases |items|
  {
    if items != [] {
      FilterCounts(items[1..], keys, term, x);
      assert items == [items[0]] + items[1..];
    }
  }

  /** The filter works item by item, so it keeps the items' order: filtering
      a concatenation concatenates the filtered parts. */
  lemma {:induction false} FilterConcat(a: seq<Item>, b: seq<Item>, keys: seq<string>, term: string)
    ensures FilterItems(a + b, keys, term) == FilterItems(a, keys, term) + FilterItems(b, keys, term)
    decreases |a|
  {
    if a != [] {
      assert (a + b)[1..] == a[1..] + b;
      FilterConcat(a[1..], b, keys, term);
    } else {
      assert a + b == b;
    }
  }

  /** Filtering what has been filtered changes nothing. */
  lemma {:induction false} FilterIdempotent(items: seq<Item>, keys: seq<string>, term: string)
    ensures FilterItems(FilterItems(items, keys, term), keys, term) == FilterItems(items, keys, term)
    decreases |items|
  {
    if items != [] {
      var head := if AnyKeyMatches(items[0], keys, term) then [items[0]] else [];
      FilterConcat(head, FilterItems(items[1..], keys, term), keys, term);
      FilterIdempotent(items[1..], keys, term);
      if head != [] {
        assert FilterItems(head, keys, term) == head + FilterItems(head[1..], keys, term);
      }
    }
  }
}
