/** What a connector's config shows to a reader, and what it withholds: crates/kaas-ui-connect/src/redact.rs. */
module ConfigRedaction {
  import opened Text
  import opened Ordered

  type Config = map<string, string>

  const REDACTED := "******"

  const SECRET_ENDINGS: set<string> := {
    "password", "passphrase", "secret", "token", "key", "credentials", "jaas.config", "user.info",
    "connection.uri", "headers"
  }

  const SECRET_PREFIXES: set<string> := {"aws.access.", "aws.secret.", "aws.session."}

  datatype Entry = Entry(key: string, value: string, redacted: bool, provider: bool,
                         group: Option<string>, documentation: Option<string>)

  datatype Redaction = Declared | PatternsOnly

  type Description = (Option<string>, Option<string>)

  /** What follows each `.` of a key, longest first. */
  function DotSuffixes(key: string): seq<string> {
    if key == [] then []
    else if key[0] == '.' then [key[1..]] + DotSuffixes(key[1..])
    else DotSuffixes(key[1..])
  }

  function FirstDescribed(described: map<string, Description>, suffixes: seq<string>): Description {
    if suffixes == [] then (None, None)
    else if suffixes[0] in described then described[suffixes[0]]
    else FirstDescribed(described, suffixes[1..])
  }

  datatype PluginKeys = PluginKeys(secrets: set<string>, described: map<string, Description>) {

    predicate DeclaresSecret(key: string) {
      key in secrets || exists suffix | suffix in DotSuffixes(key) :: suffix in secrets
    }

    function Describe(key: string): Description {
      if key in described then described[key] else FirstDescribed(described, DotSuffixes(key))
    }
  }

  // ----- the name rule -----

  /** The last `.`-separated segment, and the last two, of a key. */
  function LastSegments(key: string): (string, string) {
    var segments := Split(key, '.');
    var last := segments[|segments| - 1];
    (last, if |segments| > 1 then segments[|segments| - 2] + "." + last else last)
  }

  /** Whether an ending catches a key, as its last segments are compared. */
  predicate Caught(key: string, ending: string) {
    var (last, lastTwo) := LastSegments(key);
    last == ending || lastTwo == ending || EndsWith(last, ending)
  }

  predicate EndsSecretly(key: string) {
    exists ending | ending in SECRET_ENDINGS :: Caught(key, ending)
  }

  predicate StartsSecretly(key: string) {
    exists prefix | prefix in SECRET_PREFIXES :: prefix <= key
  }

  predicate NamedSecret(key: string) {
    StartsSecretly(LowerAll(key)) || EndsSecretly(LowerAll(key))
  }

  // ----- config-provider references -----

  /** The characters Unicode calls `White_Space`, which `str::trim` removes. */
  predicate IsWhitespace(c: char) {
    || '\U{0009}' <= c <= '\U{000D}'
    || c in {'\U{0020}', '\U{0085}', '\U{00A0}', '\U{1680}'}
    || '\U{2000}' <= c <= '\U{200A}'
    || c in {'\U{2028}', '\U{2029}', '\U{202F}', '\U{205F}', '\U{3000}'}
  }

  lemma WhitespaceMeans(c: char)
    ensures IsWhitespace(c) <==> c as int in {
              0x9, 0xA, 0xB, 0xC, 0xD, 0x20, 0x85, 0xA0, 0x1680,
              0x2000, 0x2001, 0x2002, 0x2003, 0x2004, 0x2005, 0x2006, 0x2007, 0x2008, 0x2009, 0x200A,
              0x2028, 0x2029, 0x202F, 0x205F, 0x3000}
  {
  }

  function TrimStart(s: string): string {
    if s != [] && IsWhitespace(s[0]) then TrimStart(s[1..]) else s
  }

  function TrimEnd(s: string): string {
    if s != [] && IsWhitespace(s[|s| - 1]) then TrimEnd(s[..|s| - 1]) else s
  }

  predicate IsProviderReference(value: string) {
    var trimmed := TrimEnd(TrimStart(value));
    && "${" <= trimmed
    && EndsWith(trimmed[2..], "}")
    && var inner := trimmed[2..|trimmed| - 1];
       '}' !in inner && ':' in inner && inner[0] != ':'
  }

  predicate Blank(s: string) { forall c | c in s :: IsWhitespace(c) }

  lemma {:induction false} TrimStartOf(lead: string, s: string)
    requires Blank(lead) && (s == [] || !IsWhitespace(s[0]))
    ensures TrimStart(lead + s) == s
  {
    if lead == [] {
      assert lead + s == s;
    } else {
      assert lead[0] in lead && (lead + s)[1..] == lead[1..] + s;
      assert forall c | c in lead[1..] :: c in lead;
      TrimStartOf(lead[1..], s);
    }
  }

  lemma {:induction false} TrimEndOf(s: string, trail: string)
    requires Blank(trail) && (s == [] || !IsWhitespace(s[|s| - 1]))
    ensures TrimEnd(s + trail) == s
  {
    if trail == [] {
      assert s + trail == s;
    } else {
      var n := |trail| - 1;
      assert trail[n] in trail && (s + trail)[..|s + trail| - 1] == s + trail[..n];
      assert forall c | c in trail[..n] :: c in trail;
      TrimEndOf(s, trail[..n]);
    }
  }

  lemma {:induction false} TrimmedAtStart(s: string) returns (lead: string)
    ensures Blank(lead) && s == lead + TrimStart(s)
  {
    lead := "";
    if s != [] && IsWhitespace(s[0]) {
      lead := TrimmedAtStart(s[1..]);
      lead := [s[0]] + lead;
    }
  }

  lemma {:induction false} TrimmedAtEnd(s: string) returns (trail: string)
    ensures Blank(trail) && s == TrimEnd(s) + trail
  {
    trail := "";
    if s != [] && IsWhitespace(s[|s| - 1]) {
      trail := TrimmedAtEnd(s[..|s| - 1]);
      trail := trail + [s[|s| - 1]];
    }
  }

  /** `${provider:key}`, with the provider named and no brace inside. */
  predicate ProviderBody(inner: string) {
    '}' !in inner && ':' in inner && inner[0] != ':'
  }

  /** A reference, and nothing but blanks around it. */
  predicate Spells(value: string, lead: string, inner: string, trail: string) {
    value == lead + ("${" + inner + "}") + trail && Blank(lead) && Blank(trail) && ProviderBody(inner)
  }

  /** Which values are shown as pointers. */
  lemma ProviderReferenceMeans(value: string)
    ensures IsProviderReference(value) <==> exists lead, inner, trail :: Spells(value, lead, inner, trail)
  {
    hide IsProviderReference, Spells;
    if IsProviderReference(value) {
      var lead, inner, trail := PartsOfReference(value);
    }
    if lead, inner, trail :| Spells(value, lead, inner, trail) {
      SpelledReference(value, lead, inner, trail);
    }
  }

  lemma PartsOfReference(value: string) returns (lead: string, inner: string, trail: string)
    requires IsProviderReference(value)
    ensures Spells(value, lead, inner, trail)
  {
    hide Blank, TrimStart, TrimEnd;
    lead := TrimmedAtStart(value);
    trail := TrimmedAtEnd(TrimStart(value));
    inner := BracedText(TrimEnd(TrimStart(value)));
    assert value == lead + (("${" + inner + "}") + trail);
  }

  lemma BracedText(text: string) returns (inner: string)
    requires "${" <= text && EndsWith(text[2..], "}")
    ensures text == "${" + inner + "}" && inner == text[2..|text| - 1]
  {
    inner := text[2..|text| - 1];
    assert text[|text| - 1] == text[2..][|text| - 3] == '}';
  }

  lemma SpelledReference(value: string, lead: string, inner: string, trail: string)
    requires Spells(value, lead, inner, trail)
    ensures IsProviderReference(value)
  {
    TrimmedReference(lead, inner, trail);
  }

  lemma TrimmedReference(lead: string, inner: string, trail: string)
    requires Blank(lead) && Blank(trail) && ProviderBody(inner)
    ensures IsProviderReference(lead + ("${" + inner + "}") + trail)
  {
    var core := "${" + inner + "}";
    assert core[0] == '$' && core[|core| - 1] == '}';
    assert lead + core + trail == lead + (core + trail);
    TrimStartOf(lead, core + trail);
    TrimEndOf(core, trail);
    assert core[2..] == inner + "}" && core[2..|core| - 1] == inner;
  }

  // ----- redaction -----

  /** What is known of a key from its name and, where it could be fetched, its plugin's definition. */
  datatype Rules = Rules(secret: string -> bool, describe: string -> Description)

  function RulesOf(keys: Option<PluginKeys>): Rules {
    match keys
    case Some(known) => Rules(key => known.DeclaresSecret(key) || NamedSecret(key), key => known.Describe(key))
    case None => Rules(key => NamedSecret(key), key => (None, None))
  }

  predicate Withheld(key: string, value: string, rules: Rules) {
    !IsProviderReference(value) && rules.secret(key)
  }

  function EntryOf(key: string, value: string, rules: Rules): Entry {
    var secret := Withheld(key, value, rules);
    var (group, documentation) := rules.describe(key);
    Entry(key, if secret then REDACTED else value, secret, IsProviderReference(value), group, documentation)
  }

  /** One entry a key, in the given order. */
  function Entries(config: Config, order: seq<string>, rules: Rules): (entries: seq<Entry>)
    requires forall key | key in order :: key in config
  {
    seq(|order|, i requires 0 <= i < |order| => EntryOf(order[i], config[order[i]], rules))
  }

  function Redact(config: Config, keys: Option<PluginKeys>): (seq<Entry>, Redaction) {
    (Entries(config, StringKeys(config.Keys), RulesOf(keys)), if keys.Some? then Declared else PatternsOnly)
  }

  // ----- what redaction gives away -----

  /** `order` walks exactly the keys of the config. */
  ghost predicate Walks(order: seq<string>, config: Config) {
    forall key :: key in order <==> key in config
  }

  lemma SameEntry(key: string, v: string, w: string, rules: Rules)
    ensures EntryOf(key, v, rules) == EntryOf(key, w, rules)
       <==> v == w || (Withheld(key, v, rules) && Withheld(key, w, rules))
  {
  }

  /** Two configs a reader of the redacted form cannot tell apart. */
  predicate Indistinguishable(a: Config, b: Config, rules: Rules) {
    && a.Keys == b.Keys
    && forall key | key in a ::
         a[key] == b[key] || (Withheld(key, a[key], rules) && Withheld(key, b[key], rules))
  }

  lemma SameEntriesSameOrder(a: Config, ordered: seq<string>, b: Config, other: seq<string>, rules: Rules)
    requires Walks(ordered, a) && Walks(other, b)
    requires Entries(a, ordered, rules) == Entries(b, other, rules)
    ensures ordered == other
  {
    assert |ordered| == |Entries(a, ordered, rules)| == |other|;
    forall i | 0 <= i < |ordered| ensures ordered[i] == other[i] {
      assert Entries(a, ordered, rules)[i].key == Entries(b, other, rules)[i].key;
    }
  }

  lemma EqualEntries(a: Config, b: Config, order: seq<string>, rules: Rules)
    requires Walks(order, a) && Walks(order, b)
    ensures Entries(a, order, rules) == Entries(b, order, rules) <==> Indistinguishable(a, b, rules)
  {
    assert a.Keys == b.Keys;
    forall i | 0 <= i < |order|
      ensures Entries(a, order, rules)[i] == Entries(b, order, rules)[i]
         <==> a[order[i]] == b[order[i]] || (Withheld(order[i], a[order[i]], rules) && Withheld(order[i], b[order[i]], rules))
    {
      SameEntry(order[i], a[order[i]], b[order[i]], rules);
    }
  }

  lemma SameRedaction(a: Config, b: Config, keys: Option<PluginKeys>)
    ensures Redact(a, keys) == Redact(b, keys) <==> Indistinguishable(a, b, RulesOf(keys))
  {
    var ordered, other, rules := StringKeys(a.Keys), StringKeys(b.Keys), RulesOf(keys);
    if Redact(a, keys) == Redact(b, keys) {
      SameEntriesSameOrder(a, ordered, b, other, rules);
      EqualEntries(a, b, ordered, rules);
    } else if Indistinguishable(a, b, rules) {
      EqualEntries(a, b, ordered, rules);
    }
  }

  // ----- the two rules, against any dotted prefix -----

  lemma {:induction false} DotSuffixesAre(key: string, suffix: string)
    ensures suffix in DotSuffixes(key) <==> exists prefix: string :: key == prefix + "." + suffix
  {
    if key != [] {
      DotSuffixesAre(key[1..], suffix);
      if key[0] == '.' && suffix == key[1..] {
        assert key == [] + "." + suffix;
      }
      if suffix in DotSuffixes(key[1..]) {
        var prefix :| key[1..] == prefix + "." + suffix;
        assert key == [key[0]] + prefix + "." + suffix;
      }
      if prefix: string :| key == prefix + "." + suffix {
        if prefix == [] {
          assert key[0] == '.' && key[1..] == suffix;
        } else {
          assert key[1..] == prefix[1..] + "." + suffix;
        }
      }
    }
  }

  /** A key is declared secret exactly when it is, or ends in, a declared key on a `.` boundary. */
  lemma DeclaresSecretMeans(keys: PluginKeys, key: string)
    ensures keys.DeclaresSecret(key)
       <==> exists declared | declared in keys.secrets ::
              key == declared || exists prefix: string :: key == prefix + "." + declared
  {
    forall declared | declared in keys.secrets {
      DotSuffixesAre(key, declared);
    }
    if keys.DeclaresSecret(key) && key !in keys.secrets {
      var suffix :| suffix in DotSuffixes(key) && suffix in keys.secrets;
      DotSuffixesAre(key, suffix);
    }
  }

  lemma DeclaredClosedUnderPrefix(keys: PluginKeys, prefix: string, key: string)
    requires keys.DeclaresSecret(key)
    ensures keys.DeclaresSecret(prefix + "." + key)
  {
    var full := prefix + "." + key;
    if key in keys.secrets {
      DotSuffixesAre(full, key);
    } else {
      var suffix :| suffix in DotSuffixes(key) && suffix in keys.secrets;
      DotSuffixesAre(key, suffix);
      var inner: string :| key == inner + "." + suffix;
      assert full == (prefix + "." + inner) + "." + suffix;
      DotSuffixesAre(full, suffix);
    }
  }

  lemma {:induction false} LastDot(key: string) returns (front: string, last: string)
    requires '.' in key
    ensures key == front + "." + last && '.' !in last
  {
    var n := |key| - 1;
    if key[n] == '.' {
      front, last := key[..n], "";
    } else {
      front, last := LastDot(key[..n]);
      last := last + [key[n]];
    }
  }

  /** The last two segments of a key of two segments, and of a longer one. */
  lemma LastSegmentsOf(previous: string, last: string, front: string)
    requires '.' !in previous && '.' !in last
    ensures LastSegments(previous + "." + last) == (last, previous + "." + last)
    ensures LastSegments(front + "." + (previous + "." + last)) == (last, previous + "." + last)
  {
    SplitAppend(previous, last, '.');
    SplitOfOnePiece(previous, '.');
    SplitOfOnePiece(last, '.');
    LastSegmentsOfPrefixed(front, previous + "." + last);
    assert (previous + "." + last)[|previous|] == '.';
  }

  /** The same as a reader would say it: the key ends so, on a `.` boundary where the ending has a `.`. */
  predicate EndsSo(key: string, ending: string) {
    if '.' in ending then key == ending || EndsWith(key, "." + ending) else EndsWith(key, ending)
  }

  lemma PlainEnding(key: string, ending: string)
    requires '.' !in ending
    ensures Caught(key, ending) <==> EndsSo(key, ending)
  {
    if '.' !in key {
      SplitOfOnePiece(key, '.');
    } else {
      var front, last := LastDot(key);
      LastSegmentsOfPrefixed(front, last);
      SplitOfOnePiece(last, '.');
      LastTwoHasADot(front, last);
      EndsBehindADot(front, last, ending);
    }
  }

  lemma EndsBehindADot(front: string, last: string, ending: string)
    requires '.' !in ending
    ensures EndsWith(front + "." + last, ending) <==> EndsWith(last, ending)
  {
    var key := front + "." + last;
    assert key[|front|] == '.';
    if |ending| <= |last| {
      assert key[|key| - |ending|..] == last[|last| - |ending|..];
    } else if |ending| <= |key| {
      assert key[|key| - |ending|..][|ending| - |last| - 1] == '.';
    }
  }

  lemma LastTwoHasADot(front: string, last: string)
    requires '.' !in last
    ensures '.' in LastSegments(front + "." + last).1
  {
    SplitAppend(front, last, '.');
    SplitOfOnePiece(last, '.');
    var segments := Split(front + "." + last, '.');
    assert LastSegments(front + "." + last).1 == segments[|segments| - 2] + "." + last;
    assert (segments[|segments| - 2] + "." + last)[|segments[|segments| - 2]|] == '.';
  }

  lemma DottedEnding(key: string, previous: string, last: string)
    requires '.' !in previous && '.' !in last
    ensures Caught(key, previous + "." + last) <==> EndsSo(key, previous + "." + last)
  {
    var ending := previous + "." + last;
    assert ending[|previous|] == '.';
    if key == ending {
      LastSegmentsOf(previous, last, "");
    } else if EndsWith(key, "." + ending) {
      var front := key[..|key| - |ending| - 1];
      assert key == front + "." + ending;
      LastSegmentsOf(previous, last, front);
    } else if '.' !in key {
      SplitOfOnePiece(key, '.');
    } else {
      NotDotted(key, ending);
    }
  }

  lemma LastSegmentIsLast(last: string)
    requires '.' !in last
    ensures LastSegments(last).0 == last
  {
    SplitOfOnePiece(last, '.');
  }

  lemma NotDotted(key: string, ending: string)
    requires '.' in key && '.' in ending && key != ending && !EndsWith(key, "." + ending)
    ensures !Caught(key, ending)
  {
    hide LastSegments;
    var front, last := LastDot(key);
    LastSegmentsOfPrefixed(front, last);
    LastSegmentIsLast(last);
    assert !EndsWith(last, ending);
    if '.' !in front {
      LastSegmentsOf(front, last, "");
    } else {
      var before, previous := LastDot(front);
      assert key == before + "." + (previous + "." + last);
      LastSegmentsOf(previous, last, before);
      var two := previous + "." + last;
      assert EndsWith(key, "." + two);
    }
  }

  lemma PiecesOf(key: string)
    ensures |Split(key, '.')| > 1 <==> '.' in key
  {
    if '.' !in key {
      SplitOfOnePiece(key, '.');
    } else if |Split(key, '.')| == 1 {
      JoinOfSplit(key, '.');
    }
  }

  lemma LastSegmentsOfPrefixed(prefix: string, key: string)
    ensures LastSegments(prefix + "." + key).0 == LastSegments(key).0
    ensures '.' in key ==> LastSegments(prefix + "." + key) == LastSegments(key)
    ensures '.' !in key ==> LastSegments(key).1 == LastSegments(key).0
  {
    hide Split;
    SplitAppend(prefix, key, '.');
    PiecesOf(key);
    var segments, full := Split(key, '.'), Split(prefix + "." + key, '.');
    assert full[|full| - 1] == segments[|segments| - 1];
    if '.' in key {
      assert full[|full| - 2] == segments[|segments| - 2];
    }
  }

  /** The endings with a `.`, cut there. */
  lemma CutEnding(ending: string) returns (previous: string, last: string)
    requires ending in {"jaas.config", "user.info", "connection.uri"}
    ensures '.' !in previous && '.' !in last && ending == previous + "." + last
  {
    previous, last := LastDot(ending);
    assert ending[|previous|] == '.' && ending[..|previous|] == previous;
  }

  lemma DottedEndings(ending: string)
    requires ending in SECRET_ENDINGS && '.' in ending
    ensures ending in {"jaas.config", "user.info", "connection.uri"}
  {
  }

  lemma CaughtMeans(key: string, ending: string)
    requires ending in SECRET_ENDINGS
    ensures Caught(key, ending) <==> EndsSo(key, ending)
  {
    hide Caught, EndsSo;
    if '.' in ending {
      DottedEndings(ending);
      var previous, last := CutEnding(ending);
      DottedEnding(key, previous, last);
    } else {
      PlainEnding(key, ending);
    }
  }

  /** Which keys are withheld by their ending. */
  lemma EndsSecretlyMeans(key: string)
    ensures EndsSecretly(key) <==> exists ending | ending in SECRET_ENDINGS :: EndsSo(key, ending)
  {
    hide Caught, EndsSo;
    forall ending | ending in SECRET_ENDINGS ensures Caught(key, ending) <==> EndsSo(key, ending) {
      CaughtMeans(key, ending);
    }
  }

  lemma EndingClosedUnderPrefix(prefix: string, key: string)
    requires EndsSecretly(key)
    ensures EndsSecretly(prefix + "." + key)
  {
    LastSegmentsOfPrefixed(prefix, key);
  }

  lemma LowerOfPrefixed(prefix: string, key: string)
    ensures LowerAll(prefix + "." + key) == LowerAll(prefix) + "." + LowerAll(key)
  {
  }

  /** Behind the prefix `x` only the ending of the key is left to give it away. */
  lemma NeutralPrefix(key: string)
    requires NamedSecret("x" + "." + key)
    ensures EndsSecretly(LowerAll(key))
  {
    LowerOfPrefixed("x", key);
    assert LowerAll("x") == "x";
    var low := LowerAll(key);
    var full := "x" + "." + low;
    assert full[0] == 'x';
    assert EndsSecretly(full);
    SplitAppend("x", low, '.');
    SplitOfOnePiece("x", '.');
    var segments := Split(low, '.');
    assert Split(full, '.') == ["x"] + segments;
    assert LastSegments(full).0 == LastSegments(low).0;
    if |segments| > 1 {
      assert LastSegments(full).1 == LastSegments(low).1;
    } else {
      NoEndingStartsWithX();
      assert LastSegments(full).1[0] == 'x';
    }
  }

  lemma NoEndingStartsWithX()
    ensures forall ending | ending in SECRET_ENDINGS :: ending != [] && ending[0] != 'x'
  {
  }

  /**
    Which keys stay withheld by name however they are prefixed: exactly those caught by their ending.
    The `aws.` rule looks at the front of the key and is lost behind a prefix.
  */
  lemma KeptUnderEveryPrefix(key: string)
    ensures (forall prefix: string :: NamedSecret(prefix + "." + key)) <==> EndsSecretly(LowerAll(key))
  {
    if EndsSecretly(LowerAll(key)) {
      forall prefix: string ensures NamedSecret(prefix + "." + key) {
        EndingClosedUnderPrefix(LowerAll(prefix), LowerAll(key));
        LowerOfPrefixed(prefix, key);
      }
    }
    if forall prefix: string :: NamedSecret(prefix + "." + key) {
      assert NamedSecret("x" + "." + key);
      NeutralPrefix(key);
    }
  }

  lemma IdIsNoSecretEnding()
    ensures forall ending | ending in SECRET_ENDINGS ::
              "id" != ending && "secret.id" != ending && !EndsWith("id", ending)
  {
    assert forall ending | ending in SECRET_ENDINGS :: |ending| > 2 && (|ending| == 9 ==> ending[0] == 'u');
  }

  lemma LowerIsUnchanged(key: string)
    requires forall c | c in key :: !IsAsciiUpper(c)
    ensures LowerAll(key) == key
  {
  }

  const PREFIXED_KEY := "producer.override.aws" + "." + ("secret" + "." + "id")

  lemma PrefixedKeyEndsPlainly()
    ensures !EndsSecretly(PREFIXED_KEY)
  {
    LastSegmentsOf("secret", "id", "producer.override.aws");
    assert "secret" + "." + "id" == "secret.id";
    IdIsNoSecretEnding();
  }

  /** The `aws.` rule is not closed under a prefix: an overridden producer's credential is shown. */
  lemma AwsRuleStopsAtAPrefix()
    ensures NamedSecret("aws.secret.id") && !NamedSecret("producer.override.aws.secret.id")
  {
    assert StartsSecretly("aws.secret.id") by { assert "aws.secret." <= "aws.secret.id"; }
    LowerIsUnchanged("aws.secret.id");
    assert PREFIXED_KEY == "producer.override.aws.secret.id";
    LowerIsUnchanged(PREFIXED_KEY);
    assert !StartsSecretly(PREFIXED_KEY) by { assert PREFIXED_KEY[0] == 'p'; }
    PrefixedKeyEndsPlainly();
  }

  // ----- what a reader is owed -----

  lemma LowerAllMeans(s: string, i: nat)
    requires i < |s|
    ensures |LowerAll(s)| == |s|
    ensures LowerAll(s)[i] == if 'A' <= s[i] <= 'Z' then (s[i] as int + 32) as char else s[i]
  {
  }

  /** A name that is a secret's on its face, whatever wrote it in capitals. */
  predicate SecretName(lower: string) {
    || (exists ending | ending in {"password", "passphrase", "secret", "token", "key", "credentials", "jaas.config",
                                   "user.info", "connection.uri", "headers"} :: EndsSo(lower, ending))
    || "aws.access." <= lower || "aws.secret." <= lower || "aws.session." <= lower
  }

  /** A key to withhold: declared, or behind a dot the end of it is declared, or named like a secret. */
  predicate SecretKey(key: string, keys: Option<PluginKeys>) {
    || (keys.Some? && exists declared | declared in keys.value.secrets ::
                        key == declared || EndsWith(key, "." + declared))
    || SecretName(LowerAll(key))
  }

  /** A pointer into a config provider, which gives nothing away. */
  ghost predicate Reference(value: string) {
    exists lead, inner, trail :: Spells(value, lead, inner, trail)
  }

  lemma BehindADot(key: string, declared: string)
    ensures EndsWith(key, "." + declared) <==> exists prefix: string :: key == prefix + "." + declared
  {
    if EndsWith(key, "." + declared) {
      var prefix := key[..|key| - |declared| - 1];
      assert key == prefix + "." + declared;
    }
    if prefix: string :| key == prefix + "." + declared {
      assert key == prefix + ("." + declared);
    }
  }

  lemma DeclaredMeans(known: PluginKeys, key: string)
    ensures known.DeclaresSecret(key)
       <==> exists declared | declared in known.secrets :: key == declared || EndsWith(key, "." + declared)
  {
    hide EndsWith;
    DeclaresSecretMeans(known, key);
    forall declared | declared in known.secrets
      ensures EndsWith(key, "." + declared) <==> exists prefix: string :: key == prefix + "." + declared
    {
      BehindADot(key, declared);
    }
  }

  lemma NamedMeans(key: string)
    ensures NamedSecret(key) <==> SecretName(LowerAll(key))
  {
    var lower := LowerAll(key);
    hide LowerAll, EndsSo, EndsSecretly;
    EndsSecretlyMeans(lower);
    assert "aws.access." in SECRET_PREFIXES && "aws.secret." in SECRET_PREFIXES && "aws.session." in SECRET_PREFIXES;
  }

  lemma WithheldMeans(key: string, value: string, keys: Option<PluginKeys>)
    ensures Withheld(key, value, RulesOf(keys)) <==> SecretKey(key, keys) && !Reference(value)
    ensures IsProviderReference(value) <==> Reference(value)
  {
    hide NamedSecret, SecretName, IsProviderReference, EndsWith;
    NamedMeans(key);
    ProviderReferenceMeans(value);
    if keys.Some? {
      DeclaredMeans(keys.value, key);
    }
  }

  /** How a key of a config is to be shown: withheld where it is a secret and no reference, and as it is elsewhere. */
  ghost predicate ShownRight(entry: Entry, config: Config, keys: Option<PluginKeys>) {
    && entry.key in config
    && (entry.redacted <==> SecretKey(entry.key, keys) && !Reference(config[entry.key]))
    && entry.value == (if entry.redacted then "******" else config[entry.key])
    && (entry.provider <==> Reference(config[entry.key]))
    && (entry.group, entry.documentation) == (if keys.Some? then keys.value.Describe(entry.key) else (None, None))
  }

  lemma EntryShownRight(config: Config, key: string, keys: Option<PluginKeys>)
    requires key in config
    ensures ShownRight(EntryOf(key, config[key], RulesOf(keys)), config, keys)
  {
    WithheldMeans(key, config[key], keys);
    hide SecretKey, Reference, Withheld, IsProviderReference;
    assert RulesOf(keys).describe(key) == if keys.Some? then keys.value.Describe(key) else (None, None);
  }

  /** The redacted form: each key once, in the map's order, and each shown as it is to be. */
  lemma RedactMeans(config: Config, keys: Option<PluginKeys>)
    ensures var (entries, redaction) := Redact(config, keys);
            && |entries| == |config|
            && (forall key | key in config :: exists entry | entry in entries :: entry.key == key)
            && (forall i, j | 0 <= i < j < |entries| ::
                  entries[i].key != entries[j].key && StringLeq(entries[i].key, entries[j].key))
            && (forall entry | entry in entries :: ShownRight(entry, config, keys))
            && (redaction == PatternsOnly <==> keys.None?)
  {
    hide Redact, ShownRight, StringLeq;
    RedactInOrder(config, keys);
    var order, entries := StringKeys(config.Keys), Redact(config, keys).0;
    forall key | key in config ensures exists entry | entry in entries :: entry.key == key {
      var i :| 0 <= i < |order| && order[i] == key;
      assert entries[i] in entries && entries[i].key == key;
    }
  }

  lemma RedactInOrder(config: Config, keys: Option<PluginKeys>)
    ensures var (entries, redaction) := Redact(config, keys);
            var order := StringKeys(config.Keys);
            && |entries| == |order| == |config.Keys|
            && (forall i | 0 <= i < |order| :: entries[i].key == order[i] && ShownRight(entries[i], config, keys))
            && (redaction == PatternsOnly <==> keys.None?)
  {
    hide ShownRight, RulesOf, StringKeys;
    var order := StringKeys(config.Keys);
    forall i | 0 <= i < |order|
      ensures Redact(config, keys).0[i].key == order[i] && ShownRight(Redact(config, keys).0[i], config, keys)
    {
      EntryShownRight(config, order[i], keys);
    }
  }

  /**
    Non-interference, exactly: two configs are shown alike if and only if they have the same keys and differ at
    most in secrets that neither gives as a reference.
  */
  lemma NonInterference(a: Config, b: Config, keys: Option<PluginKeys>)
    ensures Redact(a, keys) == Redact(b, keys)
       <==> && a.Keys == b.Keys
            && forall key | key in a ::
                 a[key] == b[key] || (SecretKey(key, keys) && !Reference(a[key]) && !Reference(b[key]))
  {
    hide Redact, SecretKey, Reference, Withheld;
    SameRedaction(a, b, keys);
    forall key | key in a && key in b
      ensures Withheld(key, a[key], RulesOf(keys)) <==> SecretKey(key, keys) && !Reference(a[key])
      ensures Withheld(key, b[key], RulesOf(keys)) <==> SecretKey(key, keys) && !Reference(b[key])
    {
      WithheldMeans(key, a[key], keys);
      WithheldMeans(key, b[key], keys);
    }
  }

  // ----- what the plugin says of a key -----

  /** The description is the key's own, or that of the longest end of it behind a dot that has one. */
  lemma DescribeMeans(known: PluginKeys, key: string, suffix: string)
    requires key !in known.described && suffix in known.described && EndsWith(key, "." + suffix)
    requires forall other | other in known.described && EndsWith(key, "." + other) :: |other| <= |suffix|
    ensures known.Describe(key) == known.described[suffix]
  {
    BehindADot(key, suffix);
    var prefix: string :| key == prefix + "." + suffix;
    FirstIsLongest(known.described, prefix, suffix);
  }

  lemma DescribedByItself(known: PluginKeys, key: string)
    ensures key in known.described ==> known.Describe(key) == known.described[key]
    ensures key !in known.described && (forall other | other in known.described :: !EndsWith(key, "." + other)) ==>
              known.Describe(key) == (None, None)
  {
    if key !in known.described && forall other | other in known.described :: !EndsWith(key, "." + other) {
      forall suffix | suffix in DotSuffixes(key) ensures suffix !in known.described {
        DotSuffixesAre(key, suffix);
        BehindADot(key, suffix);
      }
      NoneDescribed(known.described, DotSuffixes(key));
    }
  }

  lemma {:induction false} NoneDescribed(described: map<string, Description>, suffixes: seq<string>)
    requires forall suffix | suffix in suffixes :: suffix !in described
    ensures FirstDescribed(described, suffixes) == (None, None)
  {
    if suffixes != [] {
      NoneDescribed(described, suffixes[1..]);
    }
  }

  lemma {:induction false} FirstIsLongest(described: map<string, Description>, prefix: string, suffix: string)
    requires suffix in described
    requires forall other | other in described && EndsWith(prefix + "." + suffix, "." + other) :: |other| <= |suffix|
    ensures FirstDescribed(described, DotSuffixes(prefix + "." + suffix)) == described[suffix]
  {
    var key := prefix + "." + suffix;
    if prefix == [] {
      assert key[0] == '.' && key[1..] == suffix;
    } else {
      var rest := prefix[1..] + "." + suffix;
      assert key[1..] == rest;
      hide EndsWith;
      if key[0] == '.' {
        TailEnds(key);
        assert rest !in described;
      }
      forall other | other in described && EndsWith(rest, "." + other) ensures EndsWith(key, "." + other) {
        EndsInTail(key, "." + other);
      }
      FirstIsLongest(described, prefix[1..], suffix);
    }
  }

  lemma TailEnds(key: string)
    requires key != [] && key[0] == '.'
    ensures EndsWith(key, "." + key[1..])
  {
  }

  lemma EndsInTail(key: string, end: string)
    requires key != [] && EndsWith(key[1..], end)
    ensures EndsWith(key, end)
  {
  }
}
