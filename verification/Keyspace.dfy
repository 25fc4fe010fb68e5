/**
 * Keys {app}:{env}:{scope}:{capability}:{module}:{name}:{version}[:{id}...],
 * how they are built and checked, and the parser that shows a key determines
 * everything it was built from.
 */
module Keyspace {
  import opened Wrappers
  import opened PercentEncoding
  import opened Pattern
  import Decimal

  datatype Capability = CACHE | KV | LOCK | RATE_LIMIT | DEDUP

  const MAX_SAFE_INTEGER := 9_007_199_254_740_991

  /** The integers a number holds exactly; all of them print in plain decimal. */
  type SafeInteger = n: int | -MAX_SAFE_INTEGER <= n <= MAX_SAFE_INTEGER

  datatype KeyId = Text(text: string) | Number(number: SafeInteger)

  datatype Spec = Spec(capability: Capability, moduleName: string, name: string, version: string)

  datatype Settings = Settings(app: string, env: string)

  datatype Scope = Tenant(id: string) | Global

  datatype Error = InvalidKey | InvalidTenantId

  // --------------------------------------------------------------- Segments

  function Split(s: string, sep: char): (r: seq<string>)
    ensures |r| > 0
  {
    if |s| == 0 then [""]
    else
      var front, c := Split(s[..|s| - 1], sep), s[|s| - 1];
      if c == sep then front + [""] else front[|front| - 1 := front[|front| - 1] + [c]]
  }

  function Join(parts: seq<string>, sep: char): string
    requires |parts| > 0
  {
    if |parts| == 1 then parts[0] else Join(parts[..|parts| - 1], sep) + [sep] + parts[|parts| - 1]
  }

  lemma {:induction false} SplitPlain(s: string, sep: char)
    requires sep !in s
    ensures Split(s, sep) == [s]
  {
    if |s| > 0 {
      assert s[|s| - 1] in s;
      SplitPlain(s[..|s| - 1], sep);
      assert s == s[..|s| - 1] + [s[|s| - 1]];
    }
  }

  lemma {:induction false} SplitAfter(s: string, sep: char, t: string)
    requires sep !in t
    ensures Split(s + [sep] + t, sep) == Split(s, sep) + [t]
  {
    var u := s + [sep] + t;
    if |t| == 0 {
      assert u[..|u| - 1] == s;
    } else {
      assert t[|t| - 1] in t;
      assert u[..|u| - 1] == s + [sep] + t[..|t| - 1];
      SplitAfter(s, sep, t[..|t| - 1]);
      assert t == t[..|t| - 1] + [t[|t| - 1]];
    }
  }

  lemma {:induction false} SplitOfJoin(parts: seq<string>, sep: char)
    requires |parts| > 0 && forall p | p in parts :: sep !in p
    ensures Split(Join(parts, sep), sep) == parts
  {
    if |parts| == 1 {
      SplitPlain(parts[0], sep);
    } else {
      SplitOfJoin(parts[..|parts| - 1], sep);
      SplitAfter(Join(parts[..|parts| - 1], sep), sep, parts[|parts| - 1]);
    }
  }

  predicate Lower(c: char) {
    'a' <= c <= 'z'
  }

  /** One or more lower-case letters and digits. */
  predicate IsWord(s: string) {
    |s| > 0 && forall c | c in s :: Lower(c) || Decimal.IsDigit(c)
  }

  /** Words joined by '-', the first one starting with a letter. */
  predicate IsSegment(s: string) {
    var words := Split(s, '-');
    |words[0]| > 0 && Lower(words[0][0]) && forall w | w in words :: IsWord(w)
  }

  const ABBREVIATIONS := {
    "cfg", "conf", "usr", "msg", "msgs", "tmp", "ctx", "req", "res", "resp", "idx", "cnt", "num", "str", "obj",
    "val", "mgr", "svc", "pref", "prefs", "perm", "perms", "pwd"
  }

  predicate IsName(s: string) {
    IsSegment(s) && forall w | w in Split(s, '-') :: w !in ABBREVIATIONS
  }

  predicate IsVersion(s: string) {
    |s| >= 2 && s[0] == 'v' && '1' <= s[1] <= '9' && forall i | 2 <= i < |s| :: Decimal.IsDigit(s[i])
  }

  predicate IsTenantId(s: string) {
    && 1 <= |s| <= 128 && Alphanumeric(s[0])
    && forall i | 1 <= i < |s| :: Alphanumeric(s[i]) || s[i] in {'_', '.', '-'}
  }

  /** defineKey: a definition that breaks the standard is refused. */
  function DefineKey(spec: Spec): Result<Spec, Error> {
    if IsSegment(spec.moduleName) && IsName(spec.name) && IsVersion(spec.version) then Ok(spec) else Err(InvalidKey)
  }

  function CapabilityName(c: Capability): string {
    match c
    case CACHE => "cache"
    case KV => "kv"
    case LOCK => "lock"
    case RATE_LIMIT => "ratelimit"
    case DEDUP => "dedup"
  }

  // ------------------------------------------------------------------- Build

  function IdText(id: KeyId): string {
    match id
    case Text(text) => text
    case Number(n) => if n < 0 then "-" + Decimal.Print(-n) else Decimal.Print(n)
  }

  function EscapeKeyId(id: KeyId): Result<string, Error> {
    if IdText(id) == "" then Err(InvalidKey) else Ok(Escape(IdText(id)))
  }

  function EscapeIds(ids: seq<KeyId>): Result<seq<string>, Error> {
    if |ids| == 0 then Ok([])
    else
      match EscapeIds(ids[..|ids| - 1])
      case Err(e) => Err(e)
      case Ok(front) =>
        match EscapeKeyId(ids[|ids| - 1])
        case Err(e) => Err(e)
        case Ok(last) => Ok(front + [last])
  }

  function ScopeText(scope: Scope): string {
    match scope
    case Tenant(id) => "t." + Escape(id)
    case Global => "global"
  }

  function Segments(spec: Spec, settings: Settings, scope: Scope, ids: seq<string>): seq<string> {
    [settings.app, settings.env, ScopeText(scope), CapabilityName(spec.capability), spec.moduleName, spec.name, spec.version] + ids
  }

  /** forTenant and global of a defined key: the tenant is checked, then app and env, then the ids. */
  function Build(spec: Spec, settings: Settings, scope: Scope, ids: seq<KeyId>): Result<string, Error> {
    if scope.Tenant? && !IsTenantId(scope.id) then Err(InvalidTenantId)
    else if !IsSegment(settings.app) || !IsSegment(settings.env) then Err(InvalidKey)
    else
      match EscapeIds(ids)
      case Err(e) => Err(e)
      case Ok(escaped) => Ok(Join(Segments(spec, settings, scope, escaped), ':'))
  }

  // ------------------------------------------------------------------- Parse

  /** Everything a key says; ids as text. */
  datatype Parts = Parts(settings: Settings, scope: Scope, spec: Spec, ids: seq<string>)

  function ParseCapability(s: string): Option<Capability> {
    if s == "cache" then Some(CACHE)
    else if s == "kv" then Some(KV)
    else if s == "lock" then Some(LOCK)
    else if s == "ratelimit" then Some(RATE_LIMIT)
    else if s == "dedup" then Some(DEDUP)
    else None
  }

  function ParseScope(s: string): Option<Scope> {
    if s == "global" then Some(Global)
    else if |s| >= 2 && s[..2] == "t." then
      match Unescape(s[2..])
      case None => None
      case Some(id) => Some(Tenant(id))
    else None
  }

  function ParseIds(segments: seq<string>): Option<seq<string>> {
    if |segments| == 0 then Some([])
    else
      var front, last := ParseIds(segments[..|segments| - 1]), Unescape(segments[|segments| - 1]);
      if front.None? || last.None? then None else Some(front.value + [last.value])
  }

  function ParseSegments(s: seq<string>): Option<Parts> {
    if |s| < 7 then None
    else
      var scope, capability, ids := ParseScope(s[2]), ParseCapability(s[3]), ParseIds(s[7..]);
      if scope.None? || capability.None? || ids.None? then None
      else Some(Parts(Settings(s[0], s[1]), scope.value, Spec(capability.value, s[4], s[5], s[6]), ids.value))
  }

  function Parse(key: string): Option<Parts> {
    ParseSegments(Split(key, ':'))
  }

  function IdTexts(ids: seq<KeyId>): seq<string> {
    if |ids| == 0 then [] else IdTexts(ids[..|ids| - 1]) + [IdText(ids[|ids| - 1])]
  }

  /** A character that does not separate stays inside some word. */
  lemma {:induction false} InSomeWord(s: string, sep: char, c: char) returns (i: nat)
    requires c in s && c != sep
    ensures i < |Split(s, sep)| && c in Split(s, sep)[i]
  {
    var front, last := Split(s[..|s| - 1], sep), s[|s| - 1];
    if last == c {
      i := |front| - 1;
    } else {
      assert s == s[..|s| - 1] + [last];
      i := InSomeWord(s[..|s| - 1], sep, c);
    }
  }

  lemma SegmentHasNoColon(s: string)
    requires IsSegment(s)
    ensures ':' !in s
  {
    forall c | c in s && c != '-'
      ensures Lower(c) || Decimal.IsDigit(c)
    {
      var i := InSomeWord(s, '-', c);
      assert Split(s, '-')[i] in Split(s, '-');
    }
  }

  lemma EscapedHasNoColon(raw: string)
    ensures ':' !in Escape(raw)
  {
    EscapedAlphabet(raw);
  }

  lemma {:induction false} EscapedIdsHaveNoColon(ids: seq<KeyId>)
    requires EscapeIds(ids).Ok?
    ensures forall s | s in EscapeIds(ids).value :: ':' !in s
  {
    if |ids| > 0 {
      EscapedIdsHaveNoColon(ids[..|ids| - 1]);
      EscapedHasNoColon(IdText(ids[|ids| - 1]));
    }
  }

  lemma ParseOneMore(front: seq<string>, last: string)
    requires ParseIds(front).Some? && Unescape(last).Some?
    ensures ParseIds(front + [last]) == Some(ParseIds(front).value + [Unescape(last).value])
  {
    assert (front + [last])[..|front|] == front;
  }

  lemma {:induction false} EscapedIdsParse(ids: seq<KeyId>)
    requires EscapeIds(ids).Ok?
    ensures ParseIds(EscapeIds(ids).value) == Some(IdTexts(ids))
  {
    if |ids| > 0 {
      var front, last := ids[..|ids| - 1], ids[|ids| - 1];
      EscapedIdsParse(front);
      EscapeRoundTrip(IdText(last));
      ParseOneMore(EscapeIds(front).value, Escape(IdText(last)));
    }
  }

  lemma ScopeRoundTrip(scope: Scope)
    ensures ParseScope(ScopeText(scope)) == Some(scope) && ':' !in ScopeText(scope)
  {
    if scope.Tenant? {
      EscapeRoundTrip(scope.id);
      EscapedHasNoColon(scope.id);
      var s := ScopeText(scope);
      assert s[..2] == "t." && s[2..] == Escape(scope.id);
      assert s[1] == '.' && "global"[1] == 'l';
    }
  }

  lemma SpecHasNoColon(spec: Spec)
    requires DefineKey(spec).Ok?
    ensures ':' !in CapabilityName(spec.capability) && ':' !in spec.moduleName
    ensures ':' !in spec.name && ':' !in spec.version
  {
    SegmentHasNoColon(spec.moduleName);
    SegmentHasNoColon(spec.name);
  }

  lemma PartsOfSegments(spec: Spec, settings: Settings, scope: Scope, ids: seq<string>)
    requires ParseIds(ids).Some?
    ensures ParseSegments(Segments(spec, settings, scope, ids)) == Some(Parts(settings, scope, spec, ParseIds(ids).value))
  {
    ScopeRoundTrip(scope);
    CapabilityRoundTrip(spec.capability);
    assert Segments(spec, settings, scope, ids)[7..] == ids;
  }

  lemma CapabilityRoundTrip(c: Capability)
    ensures ParseCapability(CapabilityName(c)) == Some(c)
  {
    assert CapabilityName(CACHE)[0] == 'c' && CapabilityName(KV)[0] == 'k' && CapabilityName(LOCK)[0] == 'l';
    assert CapabilityName(RATE_LIMIT)[0] == 'r' && CapabilityName(DEDUP)[0] == 'd';
  }

  lemma SegmentsHaveNoColon(spec: Spec, settings: Settings, scope: Scope, ids: seq<string>)
    requires DefineKey(spec).Ok? && IsSegment(settings.app) && IsSegment(settings.env)
    requires forall s | s in ids :: ':' !in s
    ensures forall s | s in Segments(spec, settings, scope, ids) :: ':' !in s
  {
    SegmentHasNoColon(settings.app);
    SegmentHasNoColon(settings.env);
    SpecHasNoColon(spec);
    ScopeRoundTrip(scope);
  }

  lemma SegmentsOfKey(spec: Spec, settings: Settings, scope: Scope, ids: seq<KeyId>)
    requires DefineKey(spec).Ok? && Build(spec, settings, scope, ids).Ok?
    ensures Split(Build(spec, settings, scope, ids).value, ':')
         == Segments(spec, settings, scope, EscapeIds(ids).value)
  {
    EscapedIdsHaveNoColon(ids);
    SegmentsHaveNoColon(spec, settings, scope, EscapeIds(ids).value);
    SplitOfJoin(Segments(spec, settings, scope, EscapeIds(ids).value), ':');
  }

  /** A built key parses back to exactly what it was built from, ids as their text. */
  lemma BuiltKeyParses(spec: Spec, settings: Settings, scope: Scope, ids: seq<KeyId>)
    requires DefineKey(spec).Ok? && Build(spec, settings, scope, ids).Ok?
    ensures Parse(Build(spec, settings, scope, ids).value) == Some(Parts(settings, scope, spec, IdTexts(ids)))
  {
    SegmentsOfKey(spec, settings, scope, ids);
    EscapedIdsParse(ids);
    PartsOfSegments(spec, settings, scope, EscapeIds(ids).value);
  }

  /**
   * Two built keys are equal exactly when everything they were built from is:
   * different tenants or id lists never share a key, no tenant key is a global one.
   */
  lemma KeysEqualExactly(spec: Spec, settings: Settings, scope: Scope, ids: seq<KeyId>,
                         spec': Spec, settings': Settings, scope': Scope, ids': seq<KeyId>)
    requires DefineKey(spec).Ok? && Build(spec, settings, scope, ids).Ok?
    requires DefineKey(spec').Ok? && Build(spec', settings', scope', ids').Ok?
    ensures Build(spec, settings, scope, ids) == Build(spec', settings', scope', ids') <==>
            spec == spec' && settings == settings' && scope == scope' && IdTexts(ids) == IdTexts(ids')
  {
    BuiltKeyParses(spec, settings, scope, ids);
    BuiltKeyParses(spec', settings', scope', ids');
    if IdTexts(ids) == IdTexts(ids') {
      SameTextsSameEscapes(ids, ids');
    }
  }

  lemma {:induction false} SameTextsSameEscapes(ids: seq<KeyId>, ids': seq<KeyId>)
    requires IdTexts(ids) == IdTexts(ids')
    ensures EscapeIds(ids) == EscapeIds(ids')
  {
    if |ids| > 0 && |ids'| > 0 {
      var n, n' := |ids| - 1, |ids'| - 1;
      assert IdTexts(ids) == IdTexts(ids[..n]) + [IdText(ids[n])];
      assert IdTexts(ids)[..|IdTexts(ids)| - 1] == IdTexts(ids[..n]);
      assert IdTexts(ids)[..|IdTexts(ids)| - 1] == IdTexts(ids'[..n']);
      SameTextsSameEscapes(ids[..n], ids'[..n']);
    }
  }

  lemma OnlyEmptyTextIsEmpty(id: KeyId)
    ensures IdText(id) == "" <==> id == Text("")
  {
  }

  predicate AnyEmpty(ids: seq<KeyId>) {
    exists i | 0 <= i < |ids| :: ids[i] == Text("")
  }

  lemma AnyEmptyLast(front: seq<KeyId>, last: KeyId)
    ensures AnyEmpty(front + [last]) <==> AnyEmpty(front) || last == Text("")
  {
    var ids := front + [last];
    if i :| 0 <= i < |front| && front[i] == Text("") {
      assert ids[i] == Text("");
    }
    if last == Text("") {
      assert ids[|front|] == Text("");
    }
  }

  lemma {:induction false} IdsRefusedExactly(ids: seq<KeyId>)
    ensures EscapeIds(ids).Err? <==> AnyEmpty(ids)
    ensures EscapeIds(ids).Err? ==> EscapeIds(ids) == Err(InvalidKey)
  {
    if |ids| > 0 {
      var n := |ids| - 1;
      IdsRefusedExactly(ids[..n]);
      OnlyEmptyTextIsEmpty(ids[n]);
      assert ids == ids[..n] + [ids[n]];
      AnyEmptyLast(ids[..n], ids[n]);
    }
  }

  /** A key of a defined family is refused exactly for a bad tenant, a bad app or env, or an empty id. */
  lemma RefusedExactly(spec: Spec, settings: Settings, scope: Scope, ids: seq<KeyId>)
    ensures Build(spec, settings, scope, ids).Err? <==>
            || (scope.Tenant? && !Matches(TENANT_ID_PATTERN, scope.id))
            || !Matches(SEGMENT_PATTERN, settings.app) || !Matches(SEGMENT_PATTERN, settings.env)
            || exists i | 0 <= i < |ids| :: ids[i] == Text("")
    ensures Build(spec, settings, scope, ids) == Err(InvalidTenantId) <==> scope.Tenant? && !Matches(TENANT_ID_PATTERN, scope.id)
  {
    IdsRefusedExactly(ids);
    SegmentExactly(settings.app);
    SegmentExactly(settings.env);
    if scope.Tenant? {
      TenantIdExactly(scope.id);
    }
  }

  /** Texts and numbers print apart, except a number and the text that reads the same. */
  lemma NumbersPrintApart(n: SafeInteger, m: SafeInteger)
    ensures IdText(Number(n)) == IdText(Number(m)) ==> n == m
  {
    var s, t := IdText(Number(n)), IdText(Number(m));
    if s == t {
      if n < 0 {
        assert s[0] == '-' && s[1..] == Decimal.Print(-n);
        assert m < 0 && t[1..] == Decimal.Print(-m);
        Decimal.PrintInjective(-n, -m);
      } else {
        assert Decimal.IsDigit(s[0]) && m >= 0;
        Decimal.PrintInjective(n, m);
      }
    }
  }

  // ---------------------------------------------------- The rules as written

  const LOWER := Range('a', 'z')
  const DIGIT := Range('0', '9')

  /** [a-z0-9]+ */
  const WORD := Then(OneOf([LOWER, DIGIT]), Many(OneOf([LOWER, DIGIT]), None))

  /** -[a-z0-9]+ */
  const NEXT_WORD := Then(OneOf([Range('-', '-')]), WORD)

  /** ^[a-z][a-z0-9]*(-[a-z0-9]+)*$ */
  const SEGMENT_PATTERN := Then(OneOf([LOWER]), Then(Many(OneOf([LOWER, DIGIT]), None), Many(NEXT_WORD, None)))

  /** ^v[1-9][0-9]*$ */
  const VERSION_PATTERN := Then(OneOf([Range('v', 'v')]), Then(OneOf([Range('1', '9')]), Many(OneOf([DIGIT]), None)))

  /** ^[A-Za-z0-9][A-Za-z0-9_.-]{0,127}$ */
  const TENANT_ID_PATTERN :=
    Then(OneOf([Range('A', 'Z'), LOWER, DIGIT]),
         Many(OneOf([Range('A', 'Z'), LOWER, DIGIT, Range('_', '_'), Range('.', '.'), Range('-', '-')]), Some(127)))

  lemma TenantIdExactly(s: string)
    ensures IsTenantId(s) <==> Matches(TENANT_ID_PATTERN, s)
  {
    var first, others := TENANT_ID_PATTERN.first.ranges, TENANT_ID_PATTERN.second.item.ranges;
    StartsWith(first, TENANT_ID_PATTERN.second, s);
    if |s| > 0 {
      ManyOf(others, Some(127), s[1..]);
      TenantChar(s[0]);
      forall i | 1 <= i < |s|
        ensures s[1..][i - 1] == s[i]
        ensures InRanges(s[i], others) <==> Alphanumeric(s[i]) || s[i] in {'_', '.', '-'}
      {
        TenantChar(s[i]);
      }
    }
  }

  lemma TenantChar(c: char)
    ensures InRanges(c, TENANT_ID_PATTERN.first.ranges) <==> Alphanumeric(c)
    ensures InRanges(c, TENANT_ID_PATTERN.second.item.ranges) <==> Alphanumeric(c) || c in {'_', '.', '-'}
  {
    var first, others := TENANT_ID_PATTERN.first.ranges, TENANT_ID_PATTERN.second.item.ranges;
    assert first[0] == Range('A', 'Z') && first[1] == LOWER && first[2] == DIGIT;
    assert others[..3] == first && others[3].low == '_' && others[4].low == '.' && others[5].low == '-';
    assert others[0] == Range('A', 'Z') && others[1] == LOWER && others[2] == DIGIT;
  }

  lemma WordChar(c: char)
    ensures InRanges(c, [LOWER, DIGIT]) <==> Lower(c) || Decimal.IsDigit(c)
    ensures InRanges(c, [LOWER]) <==> Lower(c)
    ensures InRanges(c, [DIGIT]) <==> Decimal.IsDigit(c)
    ensures InRanges(c, [Range('-', '-')]) <==> c == '-'
  {
    assert [LOWER, DIGIT][0] == LOWER && [LOWER, DIGIT][1] == DIGIT;
    assert [LOWER][0] == LOWER && [DIGIT][0] == DIGIT && [Range('-', '-')][0] == Range('-', '-');
  }

  lemma VersionExactly(s: string)
    ensures IsVersion(s) <==> Matches(VERSION_PATTERN, s)
  {
    var rest := VERSION_PATTERN.second;
    StartsWith([Range('v', 'v')], rest, s);
    assert forall c :: InRanges(c, [Range('v', 'v')]) <==> c == 'v' by {
      assert [Range('v', 'v')][0] == Range('v', 'v');
    }
    assert forall c :: InRanges(c, [Range('1', '9')]) <==> '1' <= c <= '9' by {
      assert [Range('1', '9')][0] == Range('1', '9');
    }
    if |s| > 0 {
      StartsWith([Range('1', '9')], rest.second, s[1..]);
      if |s| > 1 {
        DigitsExactly(s, 2);
      }
    }
  }

  lemma DigitsExactly(s: string, n: nat)
    requires n <= |s|
    ensures Matches(Many(OneOf([DIGIT]), None), s[n..]) <==> forall i | n <= i < |s| :: Decimal.IsDigit(s[i])
    ensures |s| >= 2 ==> s[1..][1..] == s[2..]
  {
    ManyOf([DIGIT], None, s[n..]);
    forall i | n <= i < |s|
      ensures s[n..][i - n] == s[i] && (InRanges(s[i], [DIGIT]) <==> Decimal.IsDigit(s[i]))
    {
      WordChar(s[i]);
    }
  }

  lemma WordExactly(s: string)
    ensures IsWord(s) <==> Matches(WORD, s)
    ensures Matches(NEXT_WORD, s) <==> |s| > 0 && s[0] == '-' && IsWord(s[1..])
  {
    WordShape(s);
    StartsWith([Range('-', '-')], WORD, s);
    if |s| > 0 {
      WordChar(s[0]);
      WordShape(s[1..]);
    }
  }

  lemma WordShape(s: string)
    ensures IsWord(s) <==> Matches(WORD, s)
  {
    StartsWith([LOWER, DIGIT], WORD.second, s);
    if |s| > 0 {
      ManyOf([LOWER, DIGIT], None, s[1..]);
      assert s == [s[0]] + s[1..];
      forall c
        ensures InRanges(c, [LOWER, DIGIT]) <==> Lower(c) || Decimal.IsDigit(c)
      {
        WordChar(c);
      }
    }
  }

  lemma WordHasNoDash(w: string)
    requires forall c | c in w :: Lower(c) || Decimal.IsDigit(c)
    ensures '-' !in w
  {
  }

  /** What Split cuts off last: the text after the last separator, if there is one. */
  lemma {:induction false} SplitLast(s: string, sep: char) returns (front: string)
    ensures var words := Split(s, sep);
            && sep !in words[|words| - 1]
            && (|words| == 1 ==> words == [s])
            && (|words| > 1 ==> s == front + [sep] + words[|words| - 1] && Split(front, sep) == words[..|words| - 1])
  {
    front := "";
    if |s| > 0 {
      var n := |s| - 1;
      var f := SplitLast(s[..n], sep);
      assert s == s[..n] + [s[n]];
      front := if s[n] == sep then s[..n] else f;
    }
  }

  lemma SegmentOneMore(p: string, d: string)
    requires IsSegment(p) && Matches(NEXT_WORD, d)
    ensures IsSegment(p + d)
  {
    WordExactly(d);
    var w := d[1..];
    WordHasNoDash(w);
    SplitAfter(p, '-', w);
    assert p + d == p + ['-'] + w;
  }

  /** A segment goes on with any number of further words. */
  lemma {:induction false} SegmentGrows(p: string, t: string)
    requires IsSegment(p) && Repeats(NEXT_WORD, None, t)
    ensures IsSegment(p + t)
    decreases |t|
  {
    if t == "" {
      assert p + t == p;
    } else {
      var k :| 0 < k <= |t| && Matches(NEXT_WORD, t[..k]) && Repeats(NEXT_WORD, OneLess(None), t[k..]);
      SegmentOneMore(p, t[..k]);
      SegmentGrows(p + t[..k], t[k..]);
      assert p + t[..k] + t[k..] == p + t;
    }
  }

  /** The first word and what follows it. */
  ghost predicate InParts(s: string, n: nat) {
    && 1 <= n <= |s| && Lower(s[0]) && (forall c | c in s[1..n] :: Lower(c) || Decimal.IsDigit(c))
    && Repeats(NEXT_WORD, None, s[n..])
  }

  lemma ManyIsRepeats(item: Pattern, s: string)
    ensures Matches(Many(item, None), s) <==> Repeats(item, None, s)
  {
  }

  /** The rest of the pattern, cut at `n`. */
  lemma CutExactly(s: string, n: nat)
    requires 1 <= n <= |s|
    ensures s[1..][..n - 1] == s[1..n] && s[1..][n - 1..] == s[n..]
    ensures Matches(SEGMENT_PATTERN.second.first, s[1..][..n - 1]) <==> forall c | c in s[1..n] :: Lower(c) || Decimal.IsDigit(c)
    ensures Matches(SEGMENT_PATTERN.second.second, s[1..][n - 1..]) <==> Repeats(NEXT_WORD, None, s[n..])
  {
    CutTexts(s, n);
    WordCharsExactly(s[1..n]);
    ManyIsRepeats(NEXT_WORD, s[n..]);
  }

  lemma CutTexts(s: string, n: nat)
    requires 1 <= n <= |s|
    ensures s[1..][..n - 1] == s[1..n] && s[1..][n - 1..] == s[n..]
  {
  }

  lemma WordCharsExactly(s: string)
    ensures Matches(Many(OneOf([LOWER, DIGIT]), None), s) <==> forall c | c in s :: Lower(c) || Decimal.IsDigit(c)
  {
    ManyOf([LOWER, DIGIT], None, s);
    forall c
      ensures InRanges(c, [LOWER, DIGIT]) <==> Lower(c) || Decimal.IsDigit(c)
    {
      WordChar(c);
    }
  }

  lemma PartsExactly(s: string)
    ensures Matches(SEGMENT_PATTERN, s) <==> exists n: nat :: InParts(s, n)
  {
    StartsWith([LOWER], SEGMENT_PATTERN.second, s);
    if |s| > 0 {
      WordChar(s[0]);
      if Matches(SEGMENT_PATTERN, s) {
        var n := PatternInParts(s);
      }
      if n: nat :| InParts(s, n) {
        CutExactly(s, n);
      }
    }
  }

  lemma PatternInParts(s: string) returns (n: nat)
    requires |s| > 0 && Lower(s[0]) && Matches(SEGMENT_PATTERN.second, s[1..])
    ensures InParts(s, n)
  {
    var k :| 0 <= k <= |s[1..]| && Matches(SEGMENT_PATTERN.second.first, s[1..][..k]) && Matches(SEGMENT_PATTERN.second.second, s[1..][k..]);
    n := k + 1;
    CutExactly(s, n);
  }

  /** One more word keeps the parts. */
  lemma PartsGrow(front: string, n: nat, last: string)
    requires InParts(front, n) && IsWord(last)
    ensures InParts(front + ['-'] + last, n)
  {
    var s, more := front + ['-'] + last, ['-'] + last;
    assert more[1..] == last;
    WordExactly(more);
    OneMore(NEXT_WORD, front[n..], more);
    assert s[n..] == front[n..] + more && s[1..n] == front[1..n];
  }

  /** A segment without its last word is one. */
  lemma WithoutLastWord(s: string, front: string, last: string)
    requires IsSegment(s) && |Split(s, '-')| > 1
    requires Split(front, '-') == Split(s, '-')[..|Split(s, '-')| - 1] && last == Split(s, '-')[|Split(s, '-')| - 1]
    ensures IsSegment(front) && IsWord(last)
  {
    assert last in Split(s, '-');
    assert forall w | w in Split(front, '-') :: w in Split(s, '-');
  }

  lemma {:induction false} SegmentInParts(s: string) returns (n: nat)
    requires IsSegment(s)
    ensures InParts(s, n)
    decreases |s|
  {
    var words := Split(s, '-');
    var front := SplitLast(s, '-');
    if |words| == 1 {
      n := |s|;
      assert s in words;
    } else {
      WithoutLastWord(s, front, words[|words| - 1]);
      n := SegmentInParts(front);
      PartsGrow(front, n, words[|words| - 1]);
    }
  }

  lemma FirstWordIsSegment(s: string, n: nat)
    requires InParts(s, n)
    ensures IsSegment(s[..n])
  {
    assert s[..n] == [s[0]] + s[1..n];
    WordHasNoDash(s[..n]);
    SplitPlain(s[..n], '-');
  }

  lemma SegmentExactly(s: string)
    ensures IsSegment(s) <==> Matches(SEGMENT_PATTERN, s)
  {
    PartsExactly(s);
    if IsSegment(s) {
      var n := SegmentInParts(s);
    }
    if n: nat :| InParts(s, n) {
      FirstWordIsSegment(s, n);
      SegmentGrows(s[..n], s[n..]);
      assert s[..n] + s[n..] == s;
    }
  }

  /** A family can be defined exactly if its parts match the patterns and no word of its name is an abbreviation. */
  lemma DefinedExactly(spec: Spec)
    ensures DefineKey(spec) == Ok(spec) <==>
            && Matches(SEGMENT_PATTERN, spec.moduleName) && Matches(SEGMENT_PATTERN, spec.name)
            && (forall w | w in Split(spec.name, '-') :: w !in ABBREVIATIONS)
            && Matches(VERSION_PATTERN, spec.version)
    ensures DefineKey(spec) != Ok(spec) ==> DefineKey(spec) == Err(InvalidKey)
  {
    SegmentExactly(spec.moduleName);
    SegmentExactly(spec.name);
    VersionExactly(spec.version);
  }

  /** The ids behind the version, each after a ':'. */
  function IdsSuffix(ids: seq<KeyId>): string {
    if |ids| == 0 then "" else IdsSuffix(ids[..|ids| - 1]) + ":" + Escape(IdText(ids[|ids| - 1]))
  }

  lemma JoinOneMore(parts: seq<string>, last: string)
    requires |parts| > 0
    ensures Join(parts + [last], ':') == Join(parts, ':') + ":" + last
  {
    assert (parts + [last])[..|parts|] == parts;
  }

  lemma EscapedLast(ids: seq<KeyId>)
    requires |ids| > 0 && EscapeIds(ids).Ok?
    ensures EscapeIds(ids[..|ids| - 1]).Ok?
    ensures EscapeIds(ids).value == EscapeIds(ids[..|ids| - 1]).value + [Escape(IdText(ids[|ids| - 1]))]
  {
  }

  lemma ConcatAssociates(a: string, b: string, c: string)
    ensures a + b + ":" + c == a + (b + ":" + c)
  {
  }

  lemma JoinStep(front: seq<string>, escaped: seq<string>, suffix: string, last: string)
    requires |front| > 0 && Join(front + escaped, ':') == Join(front, ':') + suffix
    ensures Join(front + (escaped + [last]), ':') == Join(front, ':') + (suffix + ":" + last)
  {
    assert front + (escaped + [last]) == front + escaped + [last];
    JoinOneMore(front + escaped, last);
    ConcatAssociates(Join(front, ':'), suffix, last);
  }

  lemma {:induction false} JoinWithIds(front: seq<string>, ids: seq<KeyId>)
    requires |front| > 0 && EscapeIds(ids).Ok?
    ensures Join(front + EscapeIds(ids).value, ':') == Join(front, ':') + IdsSuffix(ids)
  {
    if |ids| == 0 {
      assert front + EscapeIds(ids).value == front;
    } else {
      var n := |ids| - 1;
      EscapedLast(ids);
      JoinWithIds(front, ids[..n]);
      JoinStep(front, EscapeIds(ids[..n]).value, IdsSuffix(ids[..n]), Escape(IdText(ids[n])));
    }
  }

  /** The text of a built key, piece by piece. */
  lemma KeyText(spec: Spec, settings: Settings, scope: Scope, ids: seq<KeyId>)
    requires Build(spec, settings, scope, ids).Ok?
    ensures Build(spec, settings, scope, ids).value ==
            settings.app + ":" + settings.env + ":" + (if scope.Tenant? then "t." + Escape(scope.id) else "global") + ":"
            + (match spec.capability case CACHE => "cache" case KV => "kv" case LOCK => "lock"
               case RATE_LIMIT => "ratelimit" case DEDUP => "dedup")
            + ":" + spec.moduleName + ":" + spec.name + ":" + spec.version + IdsSuffix(ids)
  {
    JoinSegments(spec, settings, scope, ids);
    JoinSeven(settings.app, settings.env, ScopeText(scope), CapabilityName(spec.capability), spec.moduleName, spec.name, spec.version);
  }

  lemma JoinSegments(spec: Spec, settings: Settings, scope: Scope, ids: seq<KeyId>)
    requires EscapeIds(ids).Ok?
    ensures Join(Segments(spec, settings, scope, EscapeIds(ids).value), ':') ==
            Join([settings.app, settings.env, ScopeText(scope), CapabilityName(spec.capability), spec.moduleName, spec.name,
                  spec.version], ':') + IdsSuffix(ids)
  {
    JoinWithIds([settings.app, settings.env, ScopeText(scope), CapabilityName(spec.capability), spec.moduleName, spec.name,
                 spec.version], ids);
  }

  lemma JoinSeven(a: string, b: string, c: string, d: string, e: string, f: string, g: string)
    ensures Join([a, b, c, d, e, f, g], ':') == a + ":" + b + ":" + c + ":" + d + ":" + e + ":" + f + ":" + g
  {
    JoinOneMore([a], b);
    JoinOneMore([a, b], c);
    JoinOneMore([a, b, c], d);
    JoinOneMore([a, b, c, d], e);
    JoinOneMore([a, b, c, d, e], f);
    JoinOneMore([a, b, c, d, e, f], g);
    assert [a] + [b] == [a, b] && [a, b] + [c] == [a, b, c] && [a, b, c] + [d] == [a, b, c, d];
    assert [a, b, c, d] + [e] == [a, b, c, d, e] && [a, b, c, d, e] + [f] == [a, b, c, d, e, f];
    assert [a, b, c, d, e, f] + [g] == [a, b, c, d, e, f, g];
  }
}
