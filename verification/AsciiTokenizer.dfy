/** The ASCII grammar that proposes tokens at one position (engine/src/input/ascii_tokenizer.cpp). */
module AsciiTokenizer {
  import opened Wrappers
  import opened Utf

  type Text = seq<Unit>

  datatype TokenKind =
    LatinWord | Alphanumeric | Identifier | Email | Domain | Url | FilesystemPath | Number | OperatorOrSymbol

  datatype Token = Token(kind: TokenKind, begin: nat, end: nat)

  predicate IsLetter(u: Unit) { 'a' as int <= u <= 'z' as int || 'A' as int <= u <= 'Z' as int }

  predicate IsDigit(u: Unit) { '0' as int <= u <= '9' as int }

  predicate IsAlnum(u: Unit) { IsLetter(u) || IsDigit(u) }

  predicate IsDot(u: Unit) { u == '.' as int }

  predicate IsHyphen(u: Unit) { u == '-' as int }

  /** [begin, end) is the longest run of units satisfying `p`. */
  predicate IsRun(raw: Text, begin: nat, end: nat, p: Unit -> bool) {
    begin <= end && (begin <= |raw| ==> end <= |raw|) && (forall i :: begin <= i < end && i < |raw| ==> p(raw[i])) &&
    (end < |raw| ==> !p(raw[end])) && (begin > |raw| ==> end == begin)
  }

  method ScanLetters(raw: Text, begin: nat) returns (end: nat)
    ensures IsRun(raw, begin, end, IsLetter)
  {
    end := begin;
    while end < |raw| && IsLetter(raw[end])
      invariant begin <= end && (begin <= |raw| ==> end <= |raw|) && (begin > |raw| ==> end == begin)
      invariant forall i :: begin <= i < end && i < |raw| ==> IsLetter(raw[i])
    {
      end := end + 1;
    }
  }

  method ScanAlnum(raw: Text, begin: nat) returns (end: nat)
    ensures IsRun(raw, begin, end, IsAlnum)
  {
    end := begin;
    while end < |raw| && IsAlnum(raw[end])
      invariant begin <= end && (begin <= |raw| ==> end <= |raw|) && (begin > |raw| ==> end == begin)
      invariant forall i :: begin <= i < end && i < |raw| ==> IsAlnum(raw[i])
    {
      end := end + 1;
    }
  }

  /** A digit, or a dot with a digit behind it. */
  predicate NumberUnit(raw: Text, i: nat, end: nat) {
    i < end <= |raw| && (IsDigit(raw[i]) || (IsDot(raw[i]) && i + 1 < end && IsDigit(raw[i + 1])))
  }

  /** Digits, with single dots only between digits. */
  predicate IsNumber(raw: Text, begin: nat, end: nat) {
    begin <= end <= |raw| && (end > begin ==> IsDigit(raw[end - 1])) &&
    forall i :: begin <= i < end ==> NumberUnit(raw, i, end)
  }

  lemma UnitsStay(raw: Text, begin: nat, end: nat, more: nat)
    requires end <= more <= |raw| && forall i :: begin <= i < end ==> NumberUnit(raw, i, end)
    ensures forall i :: begin <= i < end ==> NumberUnit(raw, i, more)
  {
    hide NumberUnit;
    forall i: nat | begin <= i < end ensures NumberUnit(raw, i, more) {
      UnitStays(raw, i, end, more);
    }
  }

  lemma UnitStays(raw: Text, i: nat, end: nat, more: nat)
    requires NumberUnit(raw, i, end) && end <= more <= |raw|
    ensures NumberUnit(raw, i, more)
  {
  }

  lemma LastUnit(raw: Text, i: nat, end: nat)
    requires i < end <= |raw| && (IsDigit(raw[i]) || (IsDot(raw[i]) && i + 1 < end && IsDigit(raw[i + 1])))
    ensures NumberUnit(raw, i, end)
  {
  }

  lemma DigitGrows(raw: Text, begin: nat, end: nat)
    requires begin <= end < |raw| && IsNumber(raw, begin, end) && IsDigit(raw[end])
    ensures IsNumber(raw, begin, end + 1)
  {
    hide NumberUnit;
    LastUnit(raw, end, end + 1);
    UnitsStay(raw, begin, end, end + 1);
  }

  lemma DotGrows(raw: Text, begin: nat, end: nat)
    requires begin < end && end + 1 < |raw| && IsNumber(raw, begin, end) && IsDot(raw[end]) && IsDigit(raw[end + 1])
    ensures IsNumber(raw, begin, end + 2)
  {
    hide NumberUnit;
    LastUnit(raw, end, end + 2);
    LastUnit(raw, end + 1, end + 2);
    UnitsStay(raw, begin, end, end + 2);
  }

  /** A number that cannot be continued. */
  predicate WholeNumber(raw: Text, begin: nat, end: nat) {
    IsNumber(raw, begin, end) && end <= |raw| && (end < |raw| ==> !IsDigit(raw[end])) &&
    (end + 1 < |raw| ==> !(IsDot(raw[end]) && IsDigit(raw[end + 1])))
  }

  /** There is only one such number at a position. */
  lemma WholeNumberIsUnique(raw: Text, begin: nat, a: nat, b: nat)
    requires WholeNumber(raw, begin, a) && WholeNumber(raw, begin, b) && begin < a && begin < b
    ensures a == b
  {
    NotWhole(raw, begin, a, b);
    NotWhole(raw, begin, b, a);
  }

  lemma NotWhole(raw: Text, begin: nat, a: nat, b: nat)
    requires IsNumber(raw, begin, b) && begin < a
    ensures a < b ==> !WholeNumber(raw, begin, a)
  {
    if a < b {
      assert NumberUnit(raw, a, b);
    }
  }

  lemma NoDigits(raw: Text, begin: nat)
    requires begin <= |raw|
    ensures IsNumber(raw, begin, begin)
  {
  }

  /** Plain integers, decimals, dotted versions and IPv4. */
  method ScanNumber(raw: Text, begin: nat) returns (end: nat)
    requires begin < |raw| && IsDigit(raw[begin])
    ensures begin < end && WholeNumber(raw, begin, end)
  {
    hide IsNumber;
    end := begin;
    NoDigits(raw, begin);
    while end < |raw| && IsDigit(raw[end])
      invariant begin <= end <= |raw| && IsNumber(raw, begin, end)
    {
      DigitGrows(raw, begin, end);
      end := end + 1;
    }
    while end < |raw| && IsDot(raw[end]) && end + 1 < |raw| && IsDigit(raw[end + 1])
      invariant begin < end <= |raw| && IsNumber(raw, begin, end) && (end < |raw| ==> !IsDigit(raw[end]))
    {
      DotGrows(raw, begin, end);
      end := end + 2;
      while end < |raw| && IsDigit(raw[end])
        invariant begin < end <= |raw| && IsNumber(raw, begin, end)
      {
        DigitGrows(raw, begin, end);
        end := end + 1;
      }
    }
  }

  predicate IsWordUnit(u: Unit) { IsAlnum(u) || u == '_' as int }

  method ScanIdentifier(raw: Text, begin: nat) returns (end: nat)
    ensures if begin < |raw| && (IsLetter(raw[begin]) || raw[begin] == '_' as int) then IsRun(raw, begin, end, IsWordUnit) && end > begin
            else end == begin
  {
    if begin >= |raw| || (!IsLetter(raw[begin]) && raw[begin] != '_' as int) {
      return begin;
    }
    end := begin + 1;
    while end < |raw| && (IsAlnum(raw[end]) || raw[end] == '_' as int)
      invariant begin < end <= |raw|
      invariant forall i :: begin <= i < end ==> IsWordUnit(raw[i])
    {
      end := end + 1;
    }
  }

  /** A position has only one longest run. */
  lemma RunIsUnique(raw: Text, begin: nat, a: nat, b: nat, p: Unit -> bool)
    requires IsRun(raw, begin, a, p) && IsRun(raw, begin, b, p)
    ensures a == b
  {
  }

  // ----- domains -----

  /** [begin, end) is a label: letters, digits and hyphens, not starting with a hyphen. */
  predicate IsLabel(raw: Text, begin: nat, end: nat) {
    begin < end <= |raw| && !IsHyphen(raw[begin]) && forall i :: begin <= i < end ==> IsAlnum(raw[i]) || IsHyphen(raw[i])
  }

  predicate IsTopLevel(raw: Text, begin: nat, end: nat) {
    begin + 2 <= end <= |raw| && forall i :: begin <= i < end ==> IsLetter(raw[i])
  }

  /** `starts` are the beginnings of consecutive labels from `begin` on, each but the last closed by a dot. */
  ghost predicate Starts(raw: Text, begin: nat, starts: seq<nat>) {
    starts != [] && starts[0] == begin && (forall k :: 0 <= k < |starts| ==> starts[k] <= |raw|) &&
    forall k :: 0 < k < |starts| ==> starts[k - 1] + 1 < starts[k] && IsLabel(raw, starts[k - 1], starts[k] - 1) && IsDot(raw[starts[k] - 1])
  }

  /** [begin, end) is label(.label)+ whose last label is at least two letters. */
  ghost predicate DomainAt(raw: Text, begin: nat, starts: seq<nat>, end: nat) {
    Starts(raw, begin, starts) && |starts| >= 2 && IsTopLevel(raw, starts[|starts| - 1], end)
  }

  ghost predicate IsDomain(raw: Text, begin: nat, end: nat) {
    exists starts: seq<nat> :: DomainAt(raw, begin, starts, end)
  }

  /** `best` is at least as long as every domain of at most `labels` labels. */
  ghost predicate Longest(raw: Text, begin: nat, labels: nat, best: Option<nat>) {
    forall starts: seq<nat>, end: nat :: DomainAt(raw, begin, starts, end) && |starts| <= labels ==> best.Some? && end <= best.value
  }

  ghost predicate LongestDomain(raw: Text, begin: nat, best: Option<nat>) {
    (best.Some? ==> IsDomain(raw, begin, best.value)) &&
    forall end: nat :: IsDomain(raw, begin, end) ==> best.Some? && end <= best.value
  }

  lemma {:induction false} SameStarts(raw: Text, begin: nat, s: seq<nat>, t: seq<nat>, k: nat)
    requires Starts(raw, begin, s) && Starts(raw, begin, t) && k < |s| && k < |t|
    ensures s[k] == t[k]
  {
    if k > 0 {
      SameStarts(raw, begin, s, t, k - 1);
      assert IsLabel(raw, s[k - 1], s[k] - 1) && IsLabel(raw, t[k - 1], t[k] - 1);
      assert !(s[k] < t[k]) && !(t[k] < s[k]);
    }
  }

  lemma SamePosition(raw: Text, begin: nat, s: seq<nat>, t: seq<nat>, k: nat)
    requires Starts(raw, begin, s) && Starts(raw, begin, t)
    ensures k < |s| && k < |t| ==> s[k] == t[k]
  {
    if k < |s| && k < |t| {
      SameStarts(raw, begin, s, t, k);
    }
  }

  lemma LabelAt(raw: Text, begin: nat, s: seq<nat>, n: nat)
    requires Starts(raw, begin, s) && n > 0
    ensures n < |s| ==> IsLabel(raw, s[n - 1], s[n] - 1) && IsDot(raw[s[n] - 1])
  {
  }

  /** No domain reaches past a label that cannot be closed by a dot. */
  lemma NothingLonger(raw: Text, begin: nat, starts: seq<nat>, labelEnd: nat, best: Option<nat>)
    requires Starts(raw, begin, starts) && Longest(raw, begin, |starts|, best)
    requires starts[|starts| - 1] <= labelEnd <= |raw|
    requires forall i :: starts[|starts| - 1] <= i < labelEnd ==> !IsDot(raw[i])
    requires labelEnd < |raw| ==> !IsAlnum(raw[labelEnd]) && !IsHyphen(raw[labelEnd])
    requires labelEnd < |raw| && IsDot(raw[labelEnd]) ==> labelEnd == starts[|starts| - 1]
    requires best.Some? ==> IsDomain(raw, begin, best.value)
    ensures LongestDomain(raw, begin, best)
  {
    forall end: nat | IsDomain(raw, begin, end) ensures best.Some? && end <= best.value {
      var s :| DomainAt(raw, begin, s, end);
      NoMoreLabels(raw, begin, starts, labelEnd, s);
    }
  }

  lemma NoMoreLabels(raw: Text, begin: nat, starts: seq<nat>, labelEnd: nat, s: seq<nat>)
    requires Starts(raw, begin, starts) && Starts(raw, begin, s)
    requires starts[|starts| - 1] <= labelEnd <= |raw|
    requires forall i :: starts[|starts| - 1] <= i < labelEnd ==> !IsDot(raw[i])
    requires labelEnd < |raw| ==> !IsAlnum(raw[labelEnd]) && !IsHyphen(raw[labelEnd])
    requires labelEnd < |raw| && IsDot(raw[labelEnd]) ==> labelEnd == starts[|starts| - 1]
    ensures |s| <= |starts|
  {
    var n := |starts|;
    SamePosition(raw, begin, starts, s, n - 1);
    LabelAt(raw, begin, s, n);
  }

  lemma StartsPush(raw: Text, begin: nat, starts: seq<nat>, next: nat)
    requires Starts(raw, begin, starts) && starts[|starts| - 1] + 1 < next <= |raw|
    requires IsLabel(raw, starts[|starts| - 1], next - 1) && IsDot(raw[next - 1])
    ensures Starts(raw, begin, starts + [next])
  {
  }

  /** The last label seen so far either ends a longer domain or none at all. */
  lemma LastLabel(raw: Text, begin: nat, starts: seq<nat>, labelEnd: nat, tld: Option<nat>, best: Option<nat>, next: Option<nat>)
    requires Starts(raw, begin, starts) && starts[|starts| - 1] <= labelEnd <= |raw| && Longest(raw, begin, |starts| - 1, best)
    requires labelEnd < |raw| ==> !IsAlnum(raw[labelEnd])
    requires tld.Some? ==> starts[|starts| - 1] <= tld.value <= labelEnd && (tld.value == labelEnd || !IsLetter(raw[tld.value]))
    requires tld.None? ==> (var b := starts[|starts| - 1]; b + 2 > labelEnd || !IsLetter(raw[b]) || !IsLetter(raw[b + 1]))
    requires best.Some? ==> best.value <= starts[|starts| - 1]
    requires next == if tld.Some? then tld else best
    ensures Longest(raw, begin, |starts|, next)
  {
    var b := starts[|starts| - 1];
    forall s: seq<nat>, end: nat | DomainAt(raw, begin, s, end) && |s| <= |starts| ensures next.Some? && end <= next.value {
      if |s| == |starts| {
        SameStarts(raw, begin, starts, s, |starts| - 1);
        assert IsTopLevel(raw, b, end);
      }
    }
  }

  method LettersOnlyPrefix(raw: Text, begin: nat, end: nat) returns (k: Option<nat>)
    requires begin <= end <= |raw|
    ensures k.Some? ==> begin <= k.value <= end && IsTopLevel(raw, begin, k.value)
    ensures k.Some? ==> k.value == end || !IsLetter(raw[k.value])
    ensures k.None? ==> begin + 2 > end || !IsLetter(raw[begin]) || !IsLetter(raw[begin + 1])
  {
    var n := begin;
    while n < end && IsLetter(raw[n])
      invariant begin <= n <= end && forall i :: begin <= i < n ==> IsLetter(raw[i])
    {
      n := n + 1;
    }
    k := if n - begin < 2 then None else Some(n);
  }

  method ScanLabel(raw: Text, labelBegin: nat) returns (labelEnd: nat, bad: bool)
    requires labelBegin <= |raw|
    ensures labelBegin <= labelEnd <= |raw|
    ensures bad ==> labelBegin < |raw| && labelEnd == labelBegin && IsHyphen(raw[labelBegin])
    ensures !bad && labelEnd > labelBegin ==> IsLabel(raw, labelBegin, labelEnd)
    ensures !bad && labelEnd < |raw| ==> !IsAlnum(raw[labelEnd]) && !IsHyphen(raw[labelEnd])
  {
    labelEnd := labelBegin;
    while labelEnd < |raw| && (IsAlnum(raw[labelEnd]) || IsHyphen(raw[labelEnd]))
      invariant labelBegin <= labelEnd <= |raw|
      invariant labelEnd > labelBegin ==> IsLabel(raw, labelBegin, labelEnd)
    {
      if IsHyphen(raw[labelBegin]) {
        return labelEnd, true;
      }
      labelEnd := labelEnd + 1;
    }
    bad := false;
  }

  /** No domain has a label that starts with a hyphen or is empty. */
  lemma BadLabel(raw: Text, begin: nat, starts: seq<nat>, best: Option<nat>)
    requires Starts(raw, begin, starts) && Longest(raw, begin, |starts| - 1, best)
    requires var b := starts[|starts| - 1]; b == |raw| || !IsAlnum(raw[b])
    requires best.Some? ==> IsDomain(raw, begin, best.value)
    ensures LongestDomain(raw, begin, best)
  {
    forall end: nat | IsDomain(raw, begin, end) ensures best.Some? && end <= best.value {
      var s :| DomainAt(raw, begin, s, end);
      SamePosition(raw, begin, starts, s, |starts| - 1);
      LabelAt(raw, begin, s, |starts|);
    }
  }

  /** Ends the domain after the letters of its last label, when there are two of them. */
  method EndHere(raw: Text, begin: nat, labelBegin: nat, labelEnd: nat, best: Option<nat>, ghost starts: seq<nat>)
    returns (next: Option<nat>)
    requires Starts(raw, begin, starts) && |starts| > 1 && labelBegin == starts[|starts| - 1] <= labelEnd <= |raw|
    requires Longest(raw, begin, |starts| - 1, best) && (labelEnd < |raw| ==> !IsAlnum(raw[labelEnd]))
    requires best.Some? ==> IsDomain(raw, begin, best.value) && begin < best.value <= labelBegin
    ensures Longest(raw, begin, |starts|, next)
    ensures next.Some? ==> IsDomain(raw, begin, next.value) && begin < next.value <= labelEnd
  {
    var tld := LettersOnlyPrefix(raw, labelBegin, labelEnd);
    next := if tld.Some? then tld else best;
    LastLabel(raw, begin, starts, labelEnd, tld, best, next);
    StartsAscend(raw, begin, starts, |starts| - 1);
    if tld.Some? {
      assert DomainAt(raw, begin, starts, tld.value);
    }
  }

  lemma {:induction false} StartsAscend(raw: Text, begin: nat, starts: seq<nat>, k: nat)
    requires Starts(raw, begin, starts) && k < |starts|
    ensures begin <= starts[k]
  {
    if k > 0 {
      StartsAscend(raw, begin, starts, k - 1);
    }
  }

  /** The longest domain at `begin`; a trailing part of the last label that is no letter is cut off. */
  method ScanDomain(raw: Text, begin: nat) returns (result: Option<nat>)
    ensures begin < |raw| ==> LongestDomain(raw, begin, result)
    ensures result.Some? ==> begin < result.value <= |raw|
  {
    if begin >= |raw| {
      return None;
    }
    result := None;
    ghost var starts: seq<nat> := [begin];
    if !IsAlnum(raw[begin]) {
      BadLabel(raw, begin, starts, None);
      return None;
    }
    var labelBegin := begin;
    var lastDot := false;
    while labelBegin < |raw|
      invariant begin <= labelBegin <= |raw| && Starts(raw, begin, starts) && labelBegin == starts[|starts| - 1]
      invariant lastDot == (|starts| > 1)
      invariant Longest(raw, begin, |starts| - 1, result)
      invariant result.Some? ==> IsDomain(raw, begin, result.value) && begin < result.value <= labelBegin
      decreases |raw| - labelBegin
    {
      var labelEnd, bad := ScanLabel(raw, labelBegin);
      if bad || labelEnd == labelBegin {
        BadLabel(raw, begin, starts, result);
        return;
      }
      if lastDot {
        result := EndHere(raw, begin, labelBegin, labelEnd, result, starts);
      }
      if labelEnd < |raw| && IsDot(raw[labelEnd]) {
        StartsPush(raw, begin, starts, labelEnd + 1);
        starts := starts + [labelEnd + 1];
        lastDot := true;
        labelBegin := labelEnd + 1;
        continue;
      }
      NothingLonger(raw, begin, starts, labelEnd, result);
      return;
    }
    BadLabel(raw, begin, starts, result);
  }

  predicate IsLocalPart(u: Unit) {
    IsAlnum(u) || IsDot(u) || IsHyphen(u) || u == '_' as int || u == '%' as int || u == '+' as int
  }

  /** local@domain, with the longest local part and the longest domain. */
  ghost predicate IsEmail(raw: Text, begin: nat, end: nat) {
    exists at: nat :: IsAddress(raw, begin, at) && LongestDomain(raw, at + 1, Some(end))
  }

  ghost predicate IsAddress(raw: Text, begin: nat, at: nat) {
    begin < at < |raw| && IsRun(raw, begin, at, IsLocalPart) && raw[at] == '@' as int
  }

  method ScanEmail(raw: Text, begin: nat) returns (end: Option<nat>)
    requires begin < |raw| && IsAlnum(raw[begin])
    ensures end.Some? ==> begin < end.value <= |raw| && IsEmail(raw, begin, end.value)
    ensures forall e: nat :: IsEmail(raw, begin, e) ==> end == Some(e)
  {
    hide LongestDomain;
    var at := begin;
    while at < |raw| && IsLocalPart(raw[at])
      invariant begin <= at <= |raw| && forall i :: begin <= i < at ==> IsLocalPart(raw[i])
    {
      at := at + 1;
    }
    assert IsRun(raw, begin, at, IsLocalPart);
    OneAddress(raw, begin, at);
    if at == begin || at >= |raw| || raw[at] != '@' as int {
      return None;
    }
    end := ScanDomain(raw, at + 1);
    DomainIsUnique(raw, at + 1, end);
    assert IsAddress(raw, begin, at);
  }

  lemma OneAddress(raw: Text, begin: nat, at: nat)
    requires IsRun(raw, begin, at, IsLocalPart)
    ensures forall other: nat :: IsAddress(raw, begin, other) ==> other == at
  {
    forall other: nat | IsAddress(raw, begin, other) ensures other == at {
      RunIsUnique(raw, begin, at, other, IsLocalPart);
    }
  }

  lemma DomainIsUnique(raw: Text, begin: nat, best: Option<nat>)
    requires begin < |raw| ==> LongestDomain(raw, begin, best)
    requires begin >= |raw| ==> best.None?
    ensures forall e: nat :: LongestDomain(raw, begin, Some(e)) ==> best == Some(e)
  {
    hide IsDomain;
    forall e: nat | LongestDomain(raw, begin, Some(e)) ensures best == Some(e) {
      DomainIsInside(raw, begin, e);
    }
  }

  lemma DomainIsInside(raw: Text, begin: nat, end: nat)
    requires IsDomain(raw, begin, end)
    ensures begin < |raw|
  {
    var starts :| DomainAt(raw, begin, starts, end);
    assert IsLabel(raw, starts[0], starts[1] - 1);
  }

  // ----- addresses with a scheme -----

  predicate IsSchemeUnit(u: Unit) { IsAlnum(u) || u == '+' as int || IsHyphen(u) || IsDot(u) }

  predicate NotSpace(u: Unit) { u != 0x20 }

  /** scheme:// from `begin` to `scheme`, and everything up to the next space behind it. */
  predicate IsUrl(raw: Text, begin: nat, scheme: nat, end: nat) {
    && IsRun(raw, begin + 1, scheme, IsSchemeUnit)
    && scheme + 2 < |raw| && raw[scheme] == 0x3A && raw[scheme + 1] == 0x2F && raw[scheme + 2] == 0x2F
    && IsRun(raw, scheme + 3, end, NotSpace)
  }

  /** The whole address, its authority, or a prefix up to a slash. */
  ghost predicate IsUrlEnd(raw: Text, scheme: nat, end: nat, e: nat) {
    e == end || LongestDomain(raw, scheme + 3, Some(e)) || (scheme + 3 <= e < end && e < |raw| && raw[e] == 0x2F)
  }

  ghost predicate UrlFits(raw: Text, begin: nat, e: nat) {
    exists scheme: nat, end: nat :: IsUrl(raw, begin, scheme, end) && IsUrlEnd(raw, scheme, end, e)
  }

  /** Tokens of one kind that start at `begin` and stay inside the input. */
  ghost predicate TokensAt(tokens: seq<Token>, raw: Text, begin: nat) {
    forall t :: t in tokens ==> t.begin == begin < t.end <= |raw|
  }

  ghost predicate HasEnd(tokens: seq<Token>, end: nat) {
    exists i :: 0 <= i < |tokens| && tokens[i].end == end
  }

  lemma HasEndPush(tokens: seq<Token>, t: Token)
    ensures HasEnd(tokens + [t], t.end)
    ensures forall e :: HasEnd(tokens, e) ==> HasEnd(tokens + [t], e)
  {
    var more := tokens + [t];
    assert more[|tokens|] == t;
    assert forall i :: 0 <= i < |tokens| ==> more[i] == tokens[i];
  }

  method ScanScheme(raw: Text, begin: nat) returns (scheme: nat)
    requires begin < |raw|
    ensures IsRun(raw, begin + 1, scheme, IsSchemeUnit)
  {
    scheme := begin + 1;
    while scheme < |raw| && (IsLetter(raw[scheme]) || IsDigit(raw[scheme]) || raw[scheme] == '+' as int || IsHyphen(raw[scheme]) || IsDot(raw[scheme]))
      invariant begin < scheme <= |raw|
      invariant forall i :: begin + 1 <= i < scheme ==> IsSchemeUnit(raw[i])
    {
      scheme := scheme + 1;
    }
  }

  method ScanUrl(raw: Text, begin: nat) returns (tokens: seq<Token>)
    requires begin < |raw| && IsLetter(raw[begin])
    ensures TokensAt(tokens, raw, begin)
    ensures forall t :: t in tokens ==> t.kind == Url && UrlFits(raw, begin, t.end)
    ensures forall e: nat :: UrlFits(raw, begin, e) ==> HasEnd(tokens, e)
  {
    hide LongestDomain, IsRun, HasEnd;
    tokens := [];
    var scheme := ScanScheme(raw, begin);
    if scheme + 2 >= |raw| || raw[scheme] != 0x3A || raw[scheme + 1] != 0x2F || raw[scheme + 2] != 0x2F {
      NoUrl(raw, begin, scheme);
      return;
    }
    var end := ScanToSpace(raw, scheme + 3);
    RunStaysInside(raw, begin + 1, scheme, IsSchemeUnit);
    RunStaysInside(raw, scheme + 3, end, NotSpace);
    tokens := UrlTokens(raw, begin, scheme, end);
    OneUrl(raw, begin, scheme, end);
  }

  lemma RunStaysInside(raw: Text, begin: nat, end: nat, p: Unit -> bool)
    requires IsRun(raw, begin, end, p)
    ensures begin <= end && (begin <= |raw| ==> end <= |raw|)
  {
  }

  method ScanToSpace(raw: Text, begin: nat) returns (end: nat)
    requires begin <= |raw|
    ensures IsRun(raw, begin, end, NotSpace)
  {
    end := begin;
    while end < |raw| && raw[end] != 0x20
      invariant begin <= end <= |raw| && forall i :: begin <= i < end ==> NotSpace(raw[i])
    {
      end := end + 1;
    }
  }

  lemma NoUrl(raw: Text, begin: nat, scheme: nat)
    requires IsRun(raw, begin + 1, scheme, IsSchemeUnit)
    requires !(scheme + 2 < |raw| && raw[scheme] == 0x3A && raw[scheme + 1] == 0x2F && raw[scheme + 2] == 0x2F)
    ensures forall e: nat :: !UrlFits(raw, begin, e)
  {
    hide IsUrlEnd;
    forall s: nat, end: nat ensures !IsUrl(raw, begin, s, end) {
      if IsRun(raw, begin + 1, s, IsSchemeUnit) {
        RunIsUnique(raw, begin + 1, scheme, s, IsSchemeUnit);
      }
    }
  }

  lemma OneUrl(raw: Text, begin: nat, scheme: nat, end: nat)
    requires IsUrl(raw, begin, scheme, end)
    ensures forall e: nat :: UrlFits(raw, begin, e) <==> IsUrlEnd(raw, scheme, end, e)
  {
    hide IsUrlEnd;
    forall s: nat, x: nat | IsUrl(raw, begin, s, x) ensures s == scheme && x == end {
      RunIsUnique(raw, begin + 1, scheme, s, IsSchemeUnit);
      RunIsUnique(raw, scheme + 3, end, x, NotSpace);
    }
  }

  method UrlTokens(raw: Text, begin: nat, scheme: nat, end: nat) returns (tokens: seq<Token>)
    requires begin < scheme && scheme + 3 <= end <= |raw|
    ensures TokensAt(tokens, raw, begin)
    ensures forall t :: t in tokens ==> t.kind == Url && IsUrlEnd(raw, scheme, end, t.end)
    ensures forall e: nat :: IsUrlEnd(raw, scheme, end, e) ==> HasEnd(tokens, e)
  {
    hide LongestDomain, HasEnd;
    tokens := [];
    HasEndPush(tokens, Token(Url, begin, end));
    tokens := tokens + [Token(Url, begin, end)];
    var domain := ScanDomain(raw, scheme + 3);
    DomainIsUnique(raw, scheme + 3, domain);
    if domain.Some? {
      HasEndPush(tokens, Token(Url, begin, domain.value));
      tokens := tokens + [Token(Url, begin, domain.value)];
    }
    var i := scheme + 3;
    while i < end
      invariant scheme + 3 <= i <= end && TokensAt(tokens, raw, begin)
      invariant forall t :: t in tokens ==> t.kind == Url && IsUrlEnd(raw, scheme, end, t.end)
      invariant HasEnd(tokens, end) && (domain.Some? ==> HasEnd(tokens, domain.value))
      invariant forall e: nat :: scheme + 3 <= e < i && raw[e] == 0x2F ==> HasEnd(tokens, e)
    {
      if raw[i] == 0x2F {
        HasEndPush(tokens, Token(Url, begin, i));
        tokens := tokens + [Token(Url, begin, i)];
      }
      i := i + 1;
    }
  }

  // ----- file system paths -----

  predicate IsComponentUnit(u: Unit) { IsAlnum(u) || IsDot(u) || IsHyphen(u) || u == '_' as int }

  predicate IsPathUnit(u: Unit) { IsComponentUnit(u) || u == 0x2F }

  /** The longest /component/component... from `begin` on, with something behind the first slash and no empty
      component in it. */
  predicate IsPath(raw: Text, begin: nat, end: nat) {
    && begin + 1 < end && IsRun(raw, begin + 1, end, IsPathUnit)
    && forall i :: begin < i < end && i < |raw| ==> !(raw[i] == 0x2F && raw[i - 1] == 0x2F)
  }

  /** The whole path, or a prefix up to and with a later slash. */
  predicate IsPathEnd(raw: Text, begin: nat, end: nat, e: nat) {
    e == end || (begin + 2 < e <= end && e <= |raw| && raw[e - 1] == 0x2F)
  }

  ghost predicate PathFits(raw: Text, begin: nat, e: nat) {
    exists end: nat :: IsPath(raw, begin, end) && IsPathEnd(raw, begin, end, e)
  }

  lemma OnePath(raw: Text, begin: nat, end: nat)
    requires IsRun(raw, begin + 1, end, IsPathUnit)
    ensures forall e: nat :: PathFits(raw, begin, e) <==> IsPath(raw, begin, end) && IsPathEnd(raw, begin, end, e)
  {
    hide IsPathEnd;
    forall x: nat | IsPath(raw, begin, x) ensures x == end {
      RunIsUnique(raw, begin + 1, end, x, IsPathUnit);
    }
  }

  lemma EmptyComponent(raw: Text, begin: nat, i: nat)
    requires begin < i < |raw| && raw[i] == 0x2F && raw[i - 1] == 0x2F
    requires forall k :: begin < k <= i ==> IsPathUnit(raw[k])
    ensures forall e: nat :: !PathFits(raw, begin, e)
  {
    hide IsPathEnd;
    forall end: nat ensures !IsPath(raw, begin, end) {
      if IsRun(raw, begin + 1, end, IsPathUnit) {
        RunReaches(raw, begin, end, i);
      }
    }
  }

  lemma RunReaches(raw: Text, begin: nat, end: nat, i: nat)
    requires IsRun(raw, begin + 1, end, IsPathUnit) && begin < i < |raw| && forall k :: begin < k <= i ==> IsPathUnit(raw[k])
    ensures i < end
  {
  }

  /** The end of the path units; None when a component is empty. */
  method ScanComponents(raw: Text, begin: nat) returns (end: Option<nat>)
    requires begin < |raw| && raw[begin] == 0x2F
    ensures end.Some? ==> IsRun(raw, begin + 1, end.value, IsPathUnit) && begin + 1 <= end.value <= |raw|
    ensures end.Some? ==> (begin + 1 < end.value <==> IsPath(raw, begin, end.value))
    ensures end.None? ==> forall e: nat :: !PathFits(raw, begin, e)
  {
    var at := begin + 1;
    var inComponent := false;
    while at < |raw|
      invariant begin < at <= |raw| && inComponent == (raw[at - 1] != 0x2F)
      invariant forall i :: begin < i < at ==> IsPathUnit(raw[i])
      invariant forall i :: begin < i < at ==> !(raw[i] == 0x2F && raw[i - 1] == 0x2F)
    {
      var ch := raw[at];
      if ch == 0x2F {
        if !inComponent {
          EmptyComponent(raw, begin, at);
          return None;
        }
        inComponent := false;
        at := at + 1;
        continue;
      }
      if IsAlnum(ch) || IsDot(ch) || IsHyphen(ch) || ch == '_' as int {
        inComponent := true;
        at := at + 1;
        continue;
      }
      break;
    }
    return Some(at);
  }

  method ScanFilesystemPath(raw: Text, begin: nat) returns (tokens: seq<Token>)
    requires begin < |raw| && raw[begin] == 0x2F
    ensures TokensAt(tokens, raw, begin)
    ensures forall t :: t in tokens ==> t.kind == FilesystemPath && PathFits(raw, begin, t.end)
    ensures forall e: nat :: PathFits(raw, begin, e) ==> HasEnd(tokens, e)
  {
    hide IsRun, IsPath, HasEnd;
    tokens := [];
    var components := ScanComponents(raw, begin);
    if components.None? {
      return;
    }
    var end := components.value;
    OnePath(raw, begin, end);
    if end == begin + 1 {
      return;
    }
    HasEndPush(tokens, Token(FilesystemPath, begin, end));
    tokens := tokens + [Token(FilesystemPath, begin, end)];
    var i := begin + 1;
    while i < end
      invariant begin < i <= end && TokensAt(tokens, raw, begin) && HasEnd(tokens, end)
      invariant forall t :: t in tokens ==> t.kind == FilesystemPath && IsPathEnd(raw, begin, end, t.end)
      invariant forall e: nat :: begin + 2 < e <= i && raw[e - 1] == 0x2F ==> HasEnd(tokens, e)
    {
      if raw[i] == 0x2F && i > begin + 1 {
        HasEndPush(tokens, Token(FilesystemPath, begin, i + 1));
        tokens := tokens + [Token(FilesystemPath, begin, i + 1)];
      }
      i := i + 1;
    }
  }

  // ----- all tokens at a position -----

  /** No two tokens end at the same place. */
  ghost predicate DistinctEnds(tokens: seq<Token>) {
    forall i, j :: 0 <= i < j < |tokens| ==> tokens[i].end != tokens[j].end
  }

  predicate HasLetterAndDigit(raw: Text, begin: nat, end: nat) {
    (exists i :: begin <= i < end && i < |raw| && IsLetter(raw[i])) && (exists i :: begin <= i < end && i < |raw| && IsDigit(raw[i]))
  }

  /** The grammar: what each kind of token is. A token of one unit is a word, a number or a symbol by its unit;
      every other token is the longest of its kind, or for an address or a path also one of its prefixes. */
  ghost predicate Fits(raw: Text, t: Token) {
    t.begin < t.end <= |raw| &&
    match t.kind
    case LatinWord => IsLetter(raw[t.begin]) && (t.end == t.begin + 1 || IsRun(raw, t.begin, t.end, IsLetter))
    case Number => IsDigit(raw[t.begin]) && (t.end == t.begin + 1 || WholeNumber(raw, t.begin, t.end))
    case OperatorOrSymbol => !IsAlnum(raw[t.begin]) && t.end == t.begin + 1
    case Alphanumeric => IsRun(raw, t.begin, t.end, IsAlnum) && HasLetterAndDigit(raw, t.begin, t.end)
    case Identifier => IsLetter(raw[t.begin]) && IsRun(raw, t.begin, t.end, IsWordUnit)
    case Domain => IsLetter(raw[t.begin]) && LongestDomain(raw, t.begin, Some(t.end))
    case Email => IsLetter(raw[t.begin]) && IsEmail(raw, t.begin, t.end)
    case Url => IsLetter(raw[t.begin]) && UrlFits(raw, t.begin, t.end)
    case FilesystemPath => raw[t.begin] == 0x2F && PathFits(raw, t.begin, t.end)
  }

  /** Where several kinds end at one place, the one of the lower rank is kept. */
  function Rank(kind: TokenKind): nat {
    match kind
    case LatinWord => 0
    case OperatorOrSymbol => 0
    case Number => 1
    case Alphanumeric => 1
    case Identifier => 2
    case Domain => 3
    case Email => 4
    case Url => 5
    case FilesystemPath => 5
  }

  ghost predicate Kept(tokens: seq<Token>, end: nat, rank: nat) {
    exists i :: 0 <= i < |tokens| && tokens[i].end == end && Rank(tokens[i].kind) <= rank
  }

  /** Tokens at `begin` that fit the grammar, one per end, of rank at most `rank`. */
  ghost predicate Sound(tokens: seq<Token>, raw: Text, begin: nat, rank: nat) {
    DistinctEnds(tokens) &&
    forall i :: 0 <= i < |tokens| ==> tokens[i].begin == begin && Fits(raw, tokens[i]) && Rank(tokens[i].kind) <= rank
  }

  /** Every token of the grammar is kept, or another of no higher rank that ends at the same place. */
  ghost predicate Complete(tokens: seq<Token>, raw: Text, begin: nat) {
    forall t: Token :: t.begin == begin && Fits(raw, t) ==> Kept(tokens, t.end, Rank(t.kind))
  }

  lemma KeptStays(tokens: seq<Token>, more: seq<Token>)
    requires tokens <= more
    ensures forall end: nat, rank: nat :: Kept(tokens, end, rank) ==> Kept(more, end, rank)
  {
  }

  method PushToken(tokens: seq<Token>, raw: Text, token: Token, ghost rank: nat) returns (r: seq<Token>)
    requires Sound(tokens, raw, token.begin, rank) && rank <= Rank(token.kind)
    requires token.begin < token.end ==> Fits(raw, token)
    ensures tokens <= r && Sound(r, raw, token.begin, Rank(token.kind))
    ensures token.begin < token.end ==> Kept(r, token.end, Rank(token.kind))
    ensures token.end == token.begin + 1 && tokens == [] ==> r == [token]
  {
    hide Fits;
    if token.end <= token.begin {
      return tokens;
    }
    var i := 0;
    while i < |tokens|
      invariant 0 <= i <= |tokens| && forall k :: 0 <= k < i ==> tokens[k].end != token.end
    {
      if tokens[i].end == token.end {
        return tokens;
      }
      i := i + 1;
    }
    r := tokens + [token];
    assert r[|tokens|] == token;
  }

  method PushAll(tokens: seq<Token>, raw: Text, begin: nat, kind: TokenKind, more: seq<Token>) returns (r: seq<Token>)
    requires Sound(tokens, raw, begin, Rank(kind))
    requires forall t :: t in more ==> t.begin == begin < t.end && t.kind == kind && Fits(raw, t)
    ensures tokens <= r && Sound(r, raw, begin, Rank(kind))
    ensures forall e: nat :: HasEnd(more, e) ==> Kept(r, e, Rank(kind))
  {
    hide Fits, Sound, Kept;
    r := tokens;
    var i := 0;
    while i < |more|
      invariant 0 <= i <= |more| && Sound(r, raw, begin, Rank(kind)) && tokens <= r
      invariant forall k :: 0 <= k < i ==> Kept(r, more[k].end, Rank(kind))
    {
      assert more[i] in more;
      ghost var before := r;
      r := PushToken(r, raw, more[i], Rank(kind));
      KeptStays(before, r);
      i := i + 1;
    }
  }

  method HasBoth(raw: Text, begin: nat, end: nat) returns (both: bool)
    requires begin <= end <= |raw|
    ensures both == HasLetterAndDigit(raw, begin, end)
  {
    var hasLetter, hasDigit := false, false;
    var i := begin;
    while i < end
      invariant begin <= i <= end
      invariant hasLetter <==> exists k :: begin <= k < i && IsLetter(raw[k])
      invariant hasDigit <==> exists k :: begin <= k < i && IsDigit(raw[k])
    {
      hasLetter := hasLetter || IsLetter(raw[i]);
      hasDigit := hasDigit || IsDigit(raw[i]);
      i := i + 1;
    }
    both := hasLetter && hasDigit;
  }

  function SingleKind(first: Unit): TokenKind {
    if IsLetter(first) then LatinWord else if IsDigit(first) then Number else OperatorOrSymbol
  }

  /** The tokens that start at `begin`: exactly those of the grammar, one per end, the single unit first. */
  method TokenizeAscii(raw: Text, begin: nat) returns (tokens: seq<Token>)
    ensures begin >= |raw| ==> tokens == []
    ensures begin < |raw| ==> tokens != [] && tokens[0] == Token(SingleKind(raw[begin]), begin, begin + 1)
    ensures begin < |raw| ==> Sound(tokens, raw, begin, 5) && Complete(tokens, raw, begin)
  {
    hide Fits, Sound, Complete, Kept;
    tokens := [];
    if begin >= |raw| {
      return;
    }
    var first := raw[begin];
    var single := Token(SingleKind(first), begin, begin + 1);
    NoTokens(raw, single);
    tokens := PushToken(tokens, raw, single, 0);
    if IsLetter(first) {
      tokens := TokenizeWord(raw, begin, tokens);
    } else if IsDigit(first) {
      tokens := TokenizeNumber(raw, begin, tokens);
    } else {
      ghost var known := tokens;
      RankRises(known, raw, begin, Rank(single.kind), 5);
      if first == 0x2F {
        var paths := ScanFilesystemPath(raw, begin);
        PathsFit(raw, begin, paths);
        tokens := PushAll(tokens, raw, begin, FilesystemPath, paths);
        KeptStays(known, tokens);
        SymbolComplete(raw, begin, tokens, paths);
      } else {
        SymbolComplete(raw, begin, tokens, []);
      }
    }
  }

  lemma NoTokens(raw: Text, single: Token)
    requires single.begin < |raw| && single == Token(SingleKind(raw[single.begin]), single.begin, single.begin + 1)
    ensures Fits(raw, single) && Sound([], raw, single.begin, 0)
  {
  }

  lemma RankRises(tokens: seq<Token>, raw: Text, begin: nat, rank: nat, higher: nat)
    requires Sound(tokens, raw, begin, rank) && rank <= higher
    ensures Sound(tokens, raw, begin, higher)
  {
    hide Fits;
  }

  lemma PathsFit(raw: Text, begin: nat, paths: seq<Token>)
    requires begin < |raw| && raw[begin] == 0x2F && TokensAt(paths, raw, begin)
    requires forall t :: t in paths ==> t.kind == FilesystemPath && PathFits(raw, begin, t.end)
    ensures forall t :: t in paths ==> Fits(raw, t)
  {
    hide PathFits;
  }

  /** A unit that is neither letter nor digit starts no other token than a path. */
  lemma SymbolComplete(raw: Text, begin: nat, tokens: seq<Token>, paths: seq<Token>)
    requires begin < |raw| && !IsAlnum(raw[begin]) && Kept(tokens, begin + 1, 0)
    requires raw[begin] == 0x2F ==> forall e: nat :: PathFits(raw, begin, e) ==> HasEnd(paths, e)
    requires forall e: nat :: HasEnd(paths, e) ==> Kept(tokens, e, 5)
    ensures Complete(tokens, raw, begin)
  {
    hide Kept, HasEnd, PathFits;
    forall t: Token | t.begin == begin && Fits(raw, t) ensures Kept(tokens, t.end, Rank(t.kind)) {
      if t.kind == Alphanumeric {
        NothingRuns(raw, begin, t.end);
      }
    }
  }

  lemma NothingRuns(raw: Text, begin: nat, end: nat)
    requires begin < |raw| && !IsAlnum(raw[begin]) && IsRun(raw, begin, end, IsAlnum)
    ensures end == begin
  {
  }

  /** The tokens that start with a digit. */
  method TokenizeNumber(raw: Text, begin: nat, known: seq<Token>) returns (tokens: seq<Token>)
    requires begin < |raw| && IsDigit(raw[begin]) && Sound(known, raw, begin, 1) && Kept(known, begin + 1, 1)
    ensures known <= tokens && Sound(tokens, raw, begin, 5) && Complete(tokens, raw, begin)
  {
    hide Sound, Complete, Kept, IsRun, WholeNumber, HasLetterAndDigit;
    tokens := known;
    var alnum := ScanAlnum(raw, begin);
    RunStaysInside(raw, begin, alnum, IsAlnum);
    var both := HasBoth(raw, begin, alnum);
    if both {
      tokens := PushIfNonempty(tokens, raw, Token(Alphanumeric, begin, alnum), 1);
    }
    ghost var before := tokens;
    var number := ScanNumber(raw, begin);
    WholeInside(raw, begin, number);
    if number > begin {
      tokens := PushToken(tokens, raw, Token(Number, begin, number), 1);
    }
    KeptStays(known, tokens);
    KeptStays(before, tokens);
    DigitComplete(raw, begin, tokens, alnum, number);
    RankRises(tokens, raw, begin, 1, 5);
  }

  lemma WholeInside(raw: Text, begin: nat, end: nat)
    requires WholeNumber(raw, begin, end)
    ensures end <= |raw|
  {
  }

  method PushIfNonempty(tokens: seq<Token>, raw: Text, token: Token, ghost rank: nat) returns (r: seq<Token>)
    requires token.kind == Alphanumeric && token.begin <= token.end <= |raw|
    requires IsRun(raw, token.begin, token.end, IsAlnum) && HasLetterAndDigit(raw, token.begin, token.end)
    requires Sound(tokens, raw, token.begin, rank) && rank <= 1
    ensures tokens <= r && Sound(r, raw, token.begin, 1)
    ensures token.begin < token.end ==> Kept(r, token.end, 1)
  {
    hide Sound, Kept;
    r := PushToken(tokens, raw, token, rank);
  }

  lemma DigitComplete(raw: Text, begin: nat, tokens: seq<Token>, alnum: nat, number: nat)
    requires begin < |raw| && IsDigit(raw[begin]) && Kept(tokens, begin + 1, 1)
    requires IsRun(raw, begin, alnum, IsAlnum) && (HasLetterAndDigit(raw, begin, alnum) && begin < alnum ==> Kept(tokens, alnum, 1))
    requires begin < number && WholeNumber(raw, begin, number) && Kept(tokens, number, 1)
    ensures Complete(tokens, raw, begin)
  {
    hide Kept, IsRun, WholeNumber, HasLetterAndDigit;
    forall t: Token | t.begin == begin && Fits(raw, t) ensures Kept(tokens, t.end, Rank(t.kind)) {
      if t.kind == Alphanumeric {
        RunIsUnique(raw, begin, alnum, t.end, IsAlnum);
      } else if t.kind == Number && t.end != begin + 1 {
        WholeNumberIsUnique(raw, begin, number, t.end);
      }
    }
  }

  // ----- tokens that start with a letter -----

  lemma KeptAtRank(tokens: seq<Token>, end: nat, rank: nat, higher: nat)
    requires Kept(tokens, end, rank) && rank <= higher
    ensures Kept(tokens, end, higher)
  {
  }

  lemma LettersFit(raw: Text, begin: nat, letters: nat)
    requires begin < |raw| && IsLetter(raw[begin]) && IsRun(raw, begin, letters, IsLetter)
    ensures begin < letters <= |raw| && Fits(raw, Token(LatinWord, begin, letters)) && !HasLetterAndDigit(raw, begin, letters)
  {
  }

  /** Letters, and letters with digits. */
  method TokenizeAlnum(raw: Text, begin: nat, known: seq<Token>) returns (tokens: seq<Token>, letters: nat, ghost alnum: nat)
    requires begin < |raw| && IsLetter(raw[begin]) && Sound(known, raw, begin, 0)
    ensures known <= tokens && Sound(tokens, raw, begin, 1)
    ensures IsRun(raw, begin, letters, IsLetter) && begin < letters <= |raw| && Kept(tokens, letters, 0)
    ensures IsRun(raw, begin, alnum, IsAlnum) && (HasLetterAndDigit(raw, begin, alnum) ==> Kept(tokens, alnum, 1))
  {
    hide Sound, Kept, IsRun, HasLetterAndDigit, Fits;
    letters := ScanLetters(raw, begin);
    LettersFit(raw, begin, letters);
    tokens := PushToken(known, raw, Token(LatinWord, begin, letters), 0);
    RankRises(tokens, raw, begin, 0, 1);
    var end := ScanAlnum(raw, begin);
    alnum := end;
    RunStaysInside(raw, begin, end, IsAlnum);
    AlnumReaches(raw, begin, letters, end);
    if end > letters {
      var both := HasBoth(raw, begin, end);
      if both {
        ghost var before := tokens;
        tokens := PushIfNonempty(tokens, raw, Token(Alphanumeric, begin, end), 1);
        KeptStays(before, tokens);
      }
    }
  }

  lemma AlnumReaches(raw: Text, begin: nat, letters: nat, alnum: nat)
    requires IsRun(raw, begin, letters, IsLetter) && IsRun(raw, begin, alnum, IsAlnum)
    ensures letters <= alnum
  {
  }

  /** The tokens that start with a letter. */
  method TokenizeWord(raw: Text, begin: nat, known: seq<Token>) returns (tokens: seq<Token>)
    requires begin < |raw| && IsLetter(raw[begin]) && Sound(known, raw, begin, 0) && Kept(known, begin + 1, 0)
    ensures known <= tokens && Sound(tokens, raw, begin, 5) && Complete(tokens, raw, begin)
  {
    hide Sound, Complete, Kept, IsRun, HasLetterAndDigit, LongestDomain, IsEmail, UrlFits, HasEnd, Fits;
    var letters: nat;
    ghost var alnum: nat;
    tokens, letters, alnum := TokenizeAlnum(raw, begin, known);
    ghost var words := tokens;
    RankRises(tokens, raw, begin, 1, 2);
    var identifier := ScanIdentifier(raw, begin);
    IdentifierFits(raw, begin, letters, identifier);
    if identifier > letters {
      tokens := PushToken(tokens, raw, Token(Identifier, begin, identifier), 2);
    }
    ghost var names := tokens;
    tokens := PushAddresses(tokens, raw, begin);
    KeptStays(known, words);
    KeptStays(words, names);
    KeptStays(names, tokens);
    if identifier <= letters {
      KeptAtRank(names, letters, 0, 2);
    }
    WordComplete(raw, begin, tokens, letters, alnum, identifier);
  }

  lemma IdentifierFits(raw: Text, begin: nat, letters: nat, identifier: nat)
    requires begin < |raw| && IsLetter(raw[begin]) && IsRun(raw, begin, identifier, IsWordUnit) && begin < identifier
    requires IsRun(raw, begin, letters, IsLetter)
    ensures Fits(raw, Token(Identifier, begin, identifier)) && letters <= identifier
  {
  }

  /** What the address rules offer is kept. */
  ghost predicate AddressesKept(tokens: seq<Token>, raw: Text, begin: nat) {
    && (forall e: nat :: LongestDomain(raw, begin, Some(e)) ==> Kept(tokens, e, 3))
    && (forall e: nat :: IsEmail(raw, begin, e) ==> Kept(tokens, e, 4))
    && (forall e: nat :: UrlFits(raw, begin, e) ==> Kept(tokens, e, 5))
  }

  method PushAddresses(known: seq<Token>, raw: Text, begin: nat) returns (tokens: seq<Token>)
    requires begin < |raw| && IsLetter(raw[begin]) && Sound(known, raw, begin, 2)
    ensures known <= tokens && Sound(tokens, raw, begin, 5) && AddressesKept(tokens, raw, begin)
  {
    hide Sound, Kept, LongestDomain, IsEmail, UrlFits, HasEnd, Fits;
    tokens := known;
    RankRises(tokens, raw, begin, 2, 3);
    var domain := ScanDomain(raw, begin);
    DomainIsUnique(raw, begin, domain);
    if domain.Some? {
      AddressFits(raw, Token(Domain, begin, domain.value));
      tokens := PushToken(tokens, raw, Token(Domain, begin, domain.value), 3);
    }
    ghost var domains := tokens;
    RankRises(tokens, raw, begin, 3, 4);
    var email := ScanEmail(raw, begin);
    if email.Some? {
      AddressFits(raw, Token(Email, begin, email.value));
      tokens := PushToken(tokens, raw, Token(Email, begin, email.value), 4);
    }
    ghost var emails := tokens;
    RankRises(tokens, raw, begin, 4, 5);
    var urls := ScanUrl(raw, begin);
    UrlsFit(raw, begin, urls);
    tokens := PushAll(tokens, raw, begin, Url, urls);
    KeptStays(domains, emails);
    KeptStays(emails, tokens);
  }

  lemma AddressFits(raw: Text, t: Token)
    requires t.begin < t.end <= |raw| && IsLetter(raw[t.begin])
    requires (t.kind == Domain && LongestDomain(raw, t.begin, Some(t.end))) || (t.kind == Email && IsEmail(raw, t.begin, t.end))
    ensures Fits(raw, t)
  {
    hide LongestDomain, IsEmail;
  }

  lemma UrlsFit(raw: Text, begin: nat, urls: seq<Token>)
    requires begin < |raw| && IsLetter(raw[begin]) && TokensAt(urls, raw, begin)
    requires forall t :: t in urls ==> t.kind == Url && UrlFits(raw, begin, t.end)
    ensures forall t :: t in urls ==> Fits(raw, t)
  {
    hide UrlFits;
  }

  lemma WordComplete(raw: Text, begin: nat, tokens: seq<Token>, letters: nat, alnum: nat, identifier: nat)
    requires begin < |raw| && IsLetter(raw[begin]) && Kept(tokens, begin + 1, 0)
    requires IsRun(raw, begin, letters, IsLetter) && Kept(tokens, letters, 0)
    requires IsRun(raw, begin, alnum, IsAlnum) && (HasLetterAndDigit(raw, begin, alnum) ==> Kept(tokens, alnum, 1))
    requires IsRun(raw, begin, identifier, IsWordUnit) && Kept(tokens, identifier, 2)
    requires AddressesKept(tokens, raw, begin)
    ensures Complete(tokens, raw, begin)
  {
    hide Kept, IsRun, HasLetterAndDigit, LongestDomain, IsEmail, UrlFits;
    forall t: Token | t.begin == begin && Fits(raw, t) ensures Kept(tokens, t.end, Rank(t.kind)) {
      if t.kind == LatinWord && t.end != begin + 1 {
        RunIsUnique(raw, begin, letters, t.end, IsLetter);
      } else if t.kind == Alphanumeric {
        RunIsUnique(raw, begin, alnum, t.end, IsAlnum);
      } else if t.kind == Identifier {
        RunIsUnique(raw, begin, identifier, t.end, IsWordUnit);
      }
    }
  }
}
