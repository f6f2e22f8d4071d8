/**
 Package identifiers (fluvio-package-index, package_id.rs): registry, group, name and version as text.
 URL and semantic version parsers are parameters.
 */
module PackageId {
  import opened Wrappers

  // ----- splitting and joining -----

  predicate Without(s: string, c: char) {
    forall i :: 0 <= i < |s| ==> s[i] != c
  }

  function Last<T>(s: seq<T>): T
    requires s != []
  {
    s[|s| - 1]
  }

  function Front<T>(s: seq<T>): seq<T>
    requires s != []
  {
    s[..|s| - 1]
  }

  function Split(s: string, c: char): (r: seq<string>)
    ensures r != []
  {
    if s == [] then [[]]
    else
      var r := Split(Front(s), c);
      if Last(s) == c then r + [[]] else Front(r) + [Last(r) + [Last(s)]]
  }

  function Join(parts: seq<string>, c: char): string {
    if parts == [] then []
    else if |parts| == 1 then parts[0]
    else Join(Front(parts), c) + [c] + Last(parts)
  }

  lemma {:induction false} SplitParts(s: string, c: char)
    ensures forall i :: 0 <= i < |Split(s, c)| ==> Without(Split(s, c)[i], c)
  {
    if s != [] {
      SplitParts(Front(s), c);
    }
  }

  lemma {:induction false} JoinPushed(parts: seq<string>, t: string, c: char)
    requires parts != []
    ensures Join(Front(parts) + [Last(parts) + t], c) == Join(parts, c) + t
  {
    var grown := Front(parts) + [Last(parts) + t];
    assert Front(grown) == Front(parts) && Last(grown) == Last(parts) + t;
    if |parts| > 1 {
      var before := Join(Front(parts), c);
      assert Join(grown, c) == before + [c] + (Last(parts) + t);
      hide Join;
      assert before + [c] + (Last(parts) + t) == before + [c] + Last(parts) + t;
    }
  }

  lemma {:induction false} JoinSeparated(parts: seq<string>, c: char)
    requires parts != []
    ensures Join(parts + [[]], c) == Join(parts, c) + [c]
  {
    assert Front(parts + [[]]) == parts;
    hide Join;
    assert Join(parts, c) + [c] + [] == Join(parts, c) + [c];
  }

  lemma {:induction false} JoinSplit(s: string, c: char)
    ensures Join(Split(s, c), c) == s
  {
    if s != [] {
      JoinSplit(Front(s), c);
      SplitChar(Front(s), Last(s), c);
      assert s == Front(s) + [Last(s)];
      hide Split, Join;
      var r := Split(Front(s), c);
      if Last(s) == c {
        JoinSeparated(r, c);
      } else {
        JoinPushed(r, [Last(s)], c);
      }
    }
  }

  // Text without the separator extends the last part.
  lemma {:induction false} SplitAppend(s: string, t: string, c: char)
    requires Without(t, c)
    ensures Split(s + t, c) == Front(Split(s, c)) + [Last(Split(s, c)) + t]
  {
    hide Split;
    var r := Split(s, c);
    if t == [] {
      assert s + t == s;
      assert Last(r) + t == Last(r);
      assert r == Front(r) + [Last(r)];
    } else {
      SplitAppend(s, Front(t), c);
      SplitChar(s + Front(t), Last(t), c);
      assert s + t == s + Front(t) + [Last(t)];
      assert Front(Front(r) + [Last(r) + Front(t)]) == Front(r);
      assert Last(r) + Front(t) + [Last(t)] == Last(r) + t;
    }
  }

  lemma {:induction false} SplitChar(s: string, d: char, c: char)
    ensures var r := Split(s, c);
            Split(s + [d], c) == if d == c then r + [[]] else Front(r) + [Last(r) + [d]]
  {
    assert Front(s + [d]) == s;
  }

  lemma {:induction false} SplitSeparator(s: string, t: string, c: char)
    requires Without(t, c)
    ensures Split(s + [c] + t, c) == Split(s, c) + [t]
  {
    SplitAppend(s + [c], t, c);
    assert Front(s + [c]) == s;
    assert [] + t == t;
    assert Front(Split(s, c) + [[]]) == Split(s, c);
  }

  lemma {:induction false} SplitNone(t: string, c: char)
    requires Without(t, c)
    ensures Split(t, c) == [t]
  {
    SplitAppend([], t, c);
    assert [] + t == t;
  }

  // ----- identifiers -----

  datatype PackageVersion<V> = Semver(version: V) | Tag(name: string)

  datatype PackageId<V> = PackageId(registry: Option<string>, group: Option<string>, name: string, version: V)

  datatype IdError = InvalidNameVersionSegment | InvalidPackageVersion | InvalidPackageName | InvalidGroupName

  /** Parsers and printers of other crates: URL text in normal form, and semantic versions. */
  datatype Env<!V> = Env(
    parseUrl: string -> Option<string>,
    parseSemver: string -> Option<V>,
    showSemver: V -> string)

  // Printing a parsed semantic version gives text that parses to it and has no separator.
  ghost predicate Printable<V(!new)>(env: Env<V>) {
    forall t: string :: env.parseSemver(t).Some? ==>
      var text := env.showSemver(env.parseSemver(t).value);
      env.parseSemver(text) == env.parseSemver(t) && Without(text, '/') && Without(text, ':')
  }

  const DefaultGroup: string := "fluvio"
  const DefaultRegistry: string := "https://packages.fluvio.io/v1/"

  predicate IsAscii(s: string) {
    forall i :: 0 <= i < |s| ==> s[i] < 128 as char
  }

  function ParseVersion<V>(env: Env<V>, s: string): Result<PackageVersion<V>, IdError> {
    match env.parseSemver(s)
    case Some(v) => Ok(Semver(v))
    case None => if IsAscii(s) && Without(s, '/') then Ok(Tag(s)) else Err(InvalidPackageVersion)
  }

  function ShowVersion<V>(env: Env<V>, v: PackageVersion<V>): string {
    match v
    case Semver(version) => env.showSemver(version)
    case Tag(name) => name
  }

  // Names and groups: no '/' and no ':'.
  function ParseName(s: string, error: IdError): Result<string, IdError> {
    if !Without(s, '/') || !Without(s, ':') then Err(error) else Ok(s)
  }

  predicate EndsWith(s: string, c: char) {
    s != [] && Last(s) == c
  }

  function RegistryOf<V>(env: Env<V>, segments: seq<string>): Option<string> {
    if segments == [] then None
    else
      var joined := Join(segments, '/');
      env.parseUrl(if EndsWith(joined, '/') then joined else joined + "/")
  }

  function GroupOf(segment: Option<string>): Result<Option<string>, IdError> {
    match segment
    case None => Ok(None)
    case Some(text) =>
      if text == DefaultGroup then Ok(None)
      else match ParseName(text, InvalidGroupName)
           case Ok(group) => Ok(Some(group))
           case Err(e) => Err(e)
  }

  // The segments before name and version: registry, then group.
  function Located<V, W>(env: Env<V>, segments: seq<string>, name: string, version: W)
    : Result<PackageId<W>, IdError>
  {
    var n := |segments|;
    match GroupOf(if n == 0 then None else Some(Last(segments)))
    case Err(e) => Err(e)
    case Ok(group) => Ok(PackageId(RegistryOf(env, if n == 0 then [] else Front(segments)), group, name, version))
  }

  // The form that must carry a version.
  function Parse<V>(env: Env<V>, s: string): Result<PackageId<PackageVersion<V>>, IdError> {
    var segments := Split(s, '/');
    var parts := Split(Last(segments), ':');
    if |parts| != 2 then Err(InvalidNameVersionSegment)
    else
      match ParseVersion(env, parts[1])
      case Err(e) => Err(e)
      case Ok(version) =>
        match ParseName(parts[0], InvalidPackageName)
        case Err(e) => Err(e)
        case Ok(name) => Located(env, Front(segments), name, version)
  }

  // The form that may carry one.
  function ParseMaybe<V>(env: Env<V>, s: string): Result<PackageId<Option<PackageVersion<V>>>, IdError> {
    var segments := Split(s, '/');
    var parts := Split(Last(segments), ':');
    if |parts| > 2 then Err(InvalidNameVersionSegment)
    else
      match ParseName(parts[0], InvalidPackageName)
      case Err(e) => Err(e)
      case Ok(name) =>
        if |parts| == 1 then Located(env, Front(segments), name, None)
        else
          match ParseVersion(env, parts[1])
          case Err(e) => Err(e)
          case Ok(version) => Located(env, Front(segments), name, Some(version))
  }

  function Group<V>(id: PackageId<V>): string {
    match id.group case Some(g) => g case None => DefaultGroup
  }

  function Registry<V>(id: PackageId<V>): string {
    match id.registry case Some(r) => r case None => DefaultRegistry
  }

  function Prefix<V>(id: PackageId<V>): string {
    (match id.registry case Some(r) => r case None => []) + Group(id) + "/"
  }

  function Show<V>(env: Env<V>, id: PackageId<PackageVersion<V>>): string {
    Prefix(id) + (id.name + ":" + ShowVersion(env, id.version))
  }

  function ShowMaybe<V>(env: Env<V>, id: PackageId<Option<PackageVersion<V>>>): string {
    Prefix(id) + (id.name + match id.version case Some(v) => ":" + ShowVersion(env, v) case None => [])
  }

  function Uid<V>(id: PackageId<V>): string {
    Registry(id) + Group(id) + "/" + id.name
  }

  // ----- the grammar of identifiers -----

  /** What stands before the name. */
  datatype Where = Nowhere | InGroup(group: string) | InRegistry(registry: string, group: string)

  function WhereText(w: Where): string {
    match w
    case Nowhere => []
    case InGroup(group) => group + "/"
    case InRegistry(registry, group) => registry + "/" + group + "/"
  }

  // A text is spelled as registry, group, name and, after a colon, version.
  predicate Spells(s: string, w: Where, name: string, version: Option<string>) {
    && s == WhereText(w) + (name + if version.Some? then ":" + version.value else [])
    && (!w.Nowhere? ==> Without(w.group, '/'))
    && Without(name, '/') && Without(name, ':')
    && (version.Some? ==> Without(version.value, '/') && Without(version.value, ':'))
  }

  // The registry is the URL that its text denotes with a slash at its end.
  function Slashed(text: string): string {
    if EndsWith(text, '/') then text else text + "/"
  }

  // What a spelled identifier means; the default group is none.
  function Meaning<V, W>(env: Env<V>, w: Where, name: string, version: W): Result<PackageId<W>, IdError> {
    match w
    case Nowhere => Ok(PackageId(None, None, name, version))
    case InGroup(group) =>
      if group == DefaultGroup then Ok(PackageId(None, None, name, version))
      else if !Without(group, ':') then Err(InvalidGroupName)
      else Ok(PackageId(None, Some(group), name, version))
    case InRegistry(registry, group) =>
      if group == DefaultGroup then Ok(PackageId(env.parseUrl(Slashed(registry)), None, name, version))
      else if !Without(group, ':') then Err(InvalidGroupName)
      else Ok(PackageId(env.parseUrl(Slashed(registry)), Some(group), name, version))
  }

  function MeaningVersioned<V>(env: Env<V>, w: Where, name: string, version: string)
    : Result<PackageId<PackageVersion<V>>, IdError>
  {
    match ParseVersion(env, version)
    case Err(e) => Err(e)
    case Ok(v) => Meaning(env, w, name, v)
  }

  function MeaningMaybe<V>(env: Env<V>, w: Where, name: string, version: Option<string>)
    : Result<PackageId<Option<PackageVersion<V>>>, IdError>
  {
    if version.None? then Meaning(env, w, name, None)
    else
      match ParseVersion(env, version.value)
      case Err(e) => Err(e)
      case Ok(v) => Meaning(env, w, name, Some(v))
  }

  function WhereSegments(w: Where): seq<string> {
    match w
    case Nowhere => []
    case InGroup(group) => [group]
    case InRegistry(registry, group) => Split(registry, '/') + [group]
  }

  lemma {:induction false} SplitSpelled(w: Where, text: string)
    requires (!w.Nowhere? ==> Without(w.group, '/')) && Without(text, '/')
    ensures Split(WhereText(w) + text, '/') == WhereSegments(w) + [text]
  {
    hide Split;
    match w
    case Nowhere =>
      SplitNone(text, '/');
      assert [] + text == text && [] + [text] == [text];
    case InGroup(group) =>
      SplitNone(group, '/');
      SplitSeparator(group, text, '/');
      assert WhereText(w) + text == group + ['/'] + text;
    case InRegistry(registry, group) =>
      SplitSeparator(registry, group, '/');
      SplitSeparator(registry + ['/'] + group, text, '/');
      assert WhereText(w) + text == registry + ['/'] + group + ['/'] + text;
  }

  lemma {:induction false} LocatedMeans<V, W>(env: Env<V>, w: Where, name: string, version: W)
    requires !w.Nowhere? ==> Without(w.group, '/')
    ensures Located(env, WhereSegments(w), name, version) == Meaning(env, w, name, version)
  {
    hide Split, Join;
    match w
    case Nowhere =>
    case InGroup(group) =>
      assert Front([group]) == [];
    case InRegistry(registry, group) =>
      JoinSplit(registry, '/');
      assert Front(Split(registry, '/') + [group]) == Split(registry, '/');
  }

  // The segment with name and version.
  lemma {:induction false} SplitTail(name: string, version: Option<string>)
    requires Without(name, '/') && Without(name, ':')
    requires version.Some? ==> Without(version.value, '/') && Without(version.value, ':')
    ensures var text := name + if version.Some? then ":" + version.value else [];
            && Without(text, '/')
            && Split(text, ':') == if version.Some? then [name, version.value] else [name]
  {
    if version.Some? {
      assert name + (":" + version.value) == name + ":" + version.value;
      SplitNameVersion(name, version.value);
    } else {
      assert name + [] == name;
      SplitNone(name, ':');
    }
  }

  // Every text of the grammar parses to its meaning.
  lemma {:induction false} SpelledParses<V>(env: Env<V>, s: string, w: Where, name: string, version: Option<string>)
    requires Spells(s, w, name, version)
    ensures ParseMaybe(env, s) == MeaningMaybe(env, w, name, version)
    ensures Parse(env, s) ==
            if version.Some? then MeaningVersioned(env, w, name, version.value) else Err(InvalidNameVersionSegment)
  {
    hide Split, Located, Meaning, WhereSegments, WhereText;
    var text := name + if version.Some? then ":" + version.value else [];
    SplitTail(name, version);
    SplitSpelled(w, text);
    assert Front(WhereSegments(w) + [text]) == WhereSegments(w);
    LocatedMeans<V, Option<PackageVersion<V>>>(env, w, name, None);
    if version.Some? && ParseVersion(env, version.value).Ok? {
      LocatedMeans(env, w, name, ParseVersion(env, version.value).value);
      LocatedMeans(env, w, name, Some(ParseVersion(env, version.value).value));
    }
  }

  // Every text whose last segment has at most one colon belongs to the grammar.
  lemma {:induction false} Spelling(s: string) returns (w: Where, name: string, version: Option<string>)
    requires |Split(Last(Split(s, '/')), ':')| <= 2
    ensures Spells(s, w, name, version)
    ensures version.Some? <==> |Split(Last(Split(s, '/')), ':')| == 2
  {
    hide Split, Join, WhereText;
    var segments := Split(s, '/');
    var tail := Last(segments);
    var parts := Split(tail, ':');
    SplitParts(s, '/');
    JoinSplit(s, '/');
    JoinSplit(tail, ':');
    PartClean(s, 0);
    w := JoinedWhere(segments);
    name, version := parts[0], None;
    if |parts| == 2 {
      PartClean(s, 1);
      version := Some(parts[1]);
    }
    JoinedTail(parts);
  }

  lemma {:induction false} JoinedWhere(segments: seq<string>) returns (w: Where)
    requires segments != [] && forall i :: 0 <= i < |segments| ==> Without(segments[i], '/')
    ensures Join(segments, '/') == WhereText(w) + Last(segments)
    ensures !w.Nowhere? ==> Without(w.group, '/')
  {
    var n := |segments|;
    if n == 1 {
      w := Nowhere;
      assert [] + segments[0] == segments[0];
    } else if n == 2 {
      w := InGroup(segments[0]);
      assert Front(segments) == [segments[0]];
    } else {
      w := InRegistry(Join(segments[..n - 2], '/'), segments[n - 2]);
      assert Front(segments) == segments[..n - 1] && Front(segments[..n - 1]) == segments[..n - 2];
    }
  }

  lemma {:induction false} JoinedTail(parts: seq<string>)
    requires 1 <= |parts| <= 2
    ensures Join(parts, ':') == parts[0] + if |parts| == 2 then ":" + parts[1] else []
  {
    if |parts| == 2 {
      assert Front(parts) == [parts[0]];
    } else {
      assert parts[0] + [] == parts[0];
    }
  }

  lemma {:induction false} ParseMeans<V>(env: Env<V>, s: string)
    ensures forall w, name, version ::
              Spells(s, w, name, Some(version)) ==> Parse(env, s) == MeaningVersioned(env, w, name, version)
    ensures (forall w, name, version :: !Spells(s, w, name, Some(version))) ==>
            Parse(env, s) == Err(InvalidNameVersionSegment)
  {
    hide Spells, MeaningVersioned, Split;
    forall w, name, version | Spells(s, w, name, Some(version))
      ensures Parse(env, s) == MeaningVersioned(env, w, name, version)
    {
      hide Parse;
      SpelledParses(env, s, w, name, Some(version));
    }
    if |Split(Last(Split(s, '/')), ':')| == 2 {
      var w, name, version := Spelling(s);
    }
  }

  lemma {:induction false} ParseMaybeMeans<V>(env: Env<V>, s: string)
    ensures forall w, name, version ::
              Spells(s, w, name, version) ==> ParseMaybe(env, s) == MeaningMaybe(env, w, name, version)
    ensures (forall w, name, version :: !Spells(s, w, name, version)) ==>
            ParseMaybe(env, s) == Err(InvalidNameVersionSegment)
  {
    hide Spells, MeaningMaybe, Split;
    forall w, name, version | Spells(s, w, name, version)
      ensures ParseMaybe(env, s) == MeaningMaybe(env, w, name, version)
    {
      hide ParseMaybe;
      SpelledParses(env, s, w, name, version);
    }
    if |Split(Last(Split(s, '/')), ':')| <= 2 {
      var w, name, version := Spelling(s);
    }
  }

  // A version that the semantic version parser accepts is that version, any other ASCII text is a tag,
  // and nothing else is a version.
  lemma {:induction false} VersionOfText<V>(env: Env<V>, s: string, w: Where, name: string, version: string)
    requires Spells(s, w, name, Some(version))
    ensures var r, maybe := Parse(env, s), ParseMaybe(env, s);
            && (env.parseSemver(version).Some? ==>
                  && (r.Ok? ==> r.value.version == Semver(env.parseSemver(version).value))
                  && (maybe.Ok? ==> maybe.value.version == Some(Semver(env.parseSemver(version).value))))
            && (env.parseSemver(version).None? ==>
                  && (r.Ok? ==> r.value.version == Tag(version))
                  && (maybe.Ok? ==> maybe.value.version == Some(Tag(version))))
            && (r == Err(InvalidPackageVersion) <==>
                  env.parseSemver(version).None? && exists i :: 0 <= i < |version| && version[i] as int >= 128)
  {
    hide Spells, Split;
    SpelledParses(env, s, w, name, Some(version));
    assert Without(version, '/') by { SpelledVersion(s, w, name, version); }
    hide Parse, ParseMaybe;
    AsciiIff(version);
  }

  lemma {:induction false} SpelledVersion(s: string, w: Where, name: string, version: string)
    requires Spells(s, w, name, Some(version))
    ensures Without(version, '/') && Without(version, ':')
  {
  }

  lemma {:induction false} AsciiIff(s: string)
    ensures !IsAscii(s) <==> exists i :: 0 <= i < |s| && s[i] as int >= 128
  {
  }

  // ----- the parsers as written, popping segments -----

  // The segments of a text give the URL that the text denotes with a slash at its end.
  method TryFromSegments<V>(env: Env<V>, segments: seq<string>) returns (r: Option<string>)
    ensures segments == [] ==> r == None
    ensures forall text :: segments == Split(text, '/') ==> r == env.parseUrl(Slashed(text))
    ensures r == RegistryOf(env, segments)
  {
    forall text | segments == Split(text, '/')
      ensures Join(segments, '/') == text
    {
      JoinSplit(text, '/');
    }
    if segments == [] {
      return None;
    }
    var reconstructed := Join(segments, '/');
    if !EndsWith(reconstructed, '/') {
      reconstructed := reconstructed + "/";
    }
    r := env.parseUrl(reconstructed);
  }

  // A text spelled with a version parses to its meaning, every other text is refused.
  method FromStr<V>(env: Env<V>, s: string) returns (r: Result<PackageId<PackageVersion<V>>, IdError>)
    ensures forall w, name, version ::
              Spells(s, w, name, Some(version)) ==> r == MeaningVersioned(env, w, name, version)
    ensures (forall w, name, version :: !Spells(s, w, name, Some(version))) ==> r == Err(InvalidNameVersionSegment)
    ensures r == Parse(env, s)
  {
    ParseMeans(env, s);
    var segments := Split(s, '/');
    var nameVersion := Last(segments);
    segments := Front(segments);
    var parts := Split(nameVersion, ':');
    if |parts| != 2 {
      return Err(InvalidNameVersionSegment);
    }
    var version := ParseVersion(env, parts[1]);
    if version.Err? {
      return Err(version.error);
    }
    var name := ParseName(parts[0], InvalidPackageName);
    if name.Err? {
      return Err(name.error);
    }
    var groupSegment := None;
    if segments != [] {
      groupSegment, segments := Some(Last(segments)), Front(segments);
    }
    var group := GroupOf(groupSegment);
    if group.Err? {
      return Err(group.error);
    }
    var registry := TryFromSegments(env, segments);
    r := Ok(PackageId(registry, group.value, name.value, version.value));
  }

  method FromStrMaybe<V>(env: Env<V>, s: string)
    returns (r: Result<PackageId<Option<PackageVersion<V>>>, IdError>)
    ensures forall w, name, version :: Spells(s, w, name, version) ==> r == MeaningMaybe(env, w, name, version)
    ensures (forall w, name, version :: !Spells(s, w, name, version)) ==> r == Err(InvalidNameVersionSegment)
    ensures r == ParseMaybe(env, s)
  {
    ParseMaybeMeans(env, s);
    var segments := Split(s, '/');
    var nameVersion := Last(segments);
    segments := Front(segments);
    var parts := Split(nameVersion, ':');
    if |parts| > 2 {
      return Err(InvalidNameVersionSegment);
    }
    var name := ParseName(parts[0], InvalidPackageName);
    if name.Err? {
      return Err(name.error);
    }
    var version := None;
    if |parts| == 2 {
      var parsed := ParseVersion(env, parts[1]);
      if parsed.Err? {
        return Err(parsed.error);
      }
      version := Some(parsed.value);
    }
    var groupSegment := None;
    if segments != [] {
      groupSegment, segments := Some(Last(segments)), Front(segments);
    }
    var group := GroupOf(groupSegment);
    if group.Err? {
      return Err(group.error);
    }
    var registry := TryFromSegments(env, segments);
    r := Ok(PackageId(registry, group.value, name.value, version));
  }

  // ----- round trips -----

  // Groups and names of a parsed identifier.
  predicate Clean<V>(id: PackageId<V>) {
    && Without(id.name, '/') && Without(id.name, ':')
    && Without(Group(id), '/') && Without(Group(id), ':')
    && id.group != Some(DefaultGroup)
  }

  lemma {:induction false} LocatedClean<V, W>(env: Env<V>, segments: seq<string>, name: string, version: W)
    requires Without(name, '/') && Without(name, ':')
    ensures var r := Located(env, segments, name, version);
            r.Ok? ==> Clean(r.value) && r.value.version == version && r.value.name == name
  {
  }

  lemma {:induction false} SplitPrefix<V>(id: PackageId<V>, text: string)
    requires Clean(id) && Without(text, '/')
    ensures var u := if id.registry.Some? then id.registry.value else [];
            var segments := Split(u, '/');
            Split(Prefix(id) + text, '/') == Front(segments) + [Last(segments) + Group(id), text]
  {
    hide Split;
    var u := if id.registry.Some? then id.registry.value else [];
    var segments := Split(u, '/');
    SplitAppend(u, Group(id), '/');
    SplitSeparator(u + Group(id), text, '/');
    assert Prefix(id) + text == u + Group(id) + ['/'] + text;
    assert Front(segments) + [Last(segments) + Group(id)] + [text]
        == Front(segments) + [Last(segments) + Group(id), text];
  }

  // What the printed registry is read back as, when it ends in a slash.
  function ReadBack(u: string): string
    requires EndsWith(u, '/')
  {
    if EndsWith(Front(u), '/') then Front(u) else u
  }

  // A printed registry survives if and only if it ends in a slash and the URL parser gives it back
  // for the text without a doubled last slash.
  predicate Survives<V>(env: Env<V>, registry: Option<string>) {
    registry.Some? ==> EndsWith(registry.value, '/') && env.parseUrl(ReadBack(registry.value)) == registry
  }

  lemma {:induction false} SplitLastEmpty(u: string)
    ensures Last(Split(u, '/')) == [] <==> u == [] || EndsWith(u, '/')
    ensures u == [] ==> Split(u, '/') == [[]]
    ensures EndsWith(u, '/') ==> Front(Split(u, '/')) == Split(Front(u), '/')
  {
    if u != [] {
      var r := Split(Front(u), '/');
      assert Front(r + [[]]) == r;
      assert Last(r + [[]]) == [];
    }
  }

  // Reading back what stands before the name: the same registry and group, if and only if the
  // registry survives.
  lemma {:induction false} LocatedIff<V, W>(env: Env<V>, id: PackageId<W>)
    requires Clean(id)
    ensures var u := if id.registry.Some? then id.registry.value else [];
            var segments := Split(u, '/');
            Located(env, Front(segments) + [Last(segments) + Group(id)], id.name, id.version) == Ok(id) <==>
            Survives(env, id.registry)
  {
    var u := if id.registry.Some? then id.registry.value else [];
    var segments := Split(u, '/');
    var all := Front(segments) + [Last(segments) + Group(id)];
    SplitLastEmpty(u);
    hide Split, Located, Clean, Join;
    assert Front(all) == Front(segments) && Last(all) == Last(segments) + Group(id);
    if Last(segments) != [] {
      assert |Last(all)| > |Group(id)|;
      GroupDiffers(env, id, all);
    } else {
      assert Last(all) == Group(id);
      SameGroup(env, id, all);
      if u == [] {
        assert Front(all) == [];
      } else {
        RegistryBack(env, u);
      }
    }
  }

  lemma {:induction false} RegistryBack<V>(env: Env<V>, u: string)
    requires EndsWith(u, '/')
    ensures RegistryOf(env, Split(Front(u), '/')) == env.parseUrl(ReadBack(u))
  {
    hide Split, Join;
    JoinSplit(Front(u), '/');
    assert Front(u) + "/" == u;
  }

  lemma {:induction false} SameGroup<V, W>(env: Env<V>, id: PackageId<W>, segments: seq<string>)
    requires Clean(id) && segments != [] && Last(segments) == Group(id)
    ensures Located(env, segments, id.name, id.version) == Ok(id) <==>
            RegistryOf(env, Front(segments)) == id.registry
  {
    hide RegistryOf;
  }

  lemma {:induction false} GroupDiffers<V, W>(env: Env<V>, id: PackageId<W>, segments: seq<string>)
    requires Clean(id) && segments != [] && Last(segments) != Group(id)
    ensures Located(env, segments, id.name, id.version) != Ok(id)
  {
    hide RegistryOf;
  }

  // The version text of a parsed identifier: no separator, and it parses back.
  lemma {:induction false} VersionBack<V(!new)>(env: Env<V>, s: string)
    requires Printable(env) && Without(s, '/') && Without(s, ':') && ParseVersion(env, s).Ok?
    ensures var text := ShowVersion(env, ParseVersion(env, s).value);
            && Without(text, '/') && Without(text, ':')
            && ParseVersion(env, text) == ParseVersion(env, s)
  {
  }

  lemma {:induction false} WithoutConcat(a: string, b: string, c: char)
    requires Without(a, c) && Without(b, c)
    ensures Without(a + b, c)
  {
  }

  // Splitting a printed name and version gives both back.
  lemma {:induction false} SplitNameVersion(name: string, version: string)
    requires Without(name, ':') && Without(version, ':') && Without(name, '/') && Without(version, '/')
    ensures Split(name + ":" + version, ':') == [name, version]
    ensures Without(name + ":" + version, '/')
  {
    SplitSeparator(name, version, ':');
    SplitNone(name, ':');
    assert [name] + [version] == [name, version];
    WithoutConcat(name, ":", '/');
    WithoutConcat(name + ":", version, '/');
  }

  // The parts of the last segment.
  lemma {:induction false} PartClean(s: string, i: nat)
    requires i < |Split(Last(Split(s, '/')), ':')|
    ensures var part := Split(Last(Split(s, '/')), ':')[i];
            Without(part, '/') && Without(part, ':')
  {
    var segments := Split(s, '/');
    SplitParts(s, '/');
    SplitParts(Last(segments), ':');
    SplitKeepsOut(Last(segments), ':', '/');
  }

  lemma {:induction false} SplitKeepsOut(s: string, c: char, d: char)
    requires Without(s, d)
    ensures forall i :: 0 <= i < |Split(s, c)| ==> Without(Split(s, c)[i], d)
  {
    if s != [] {
      SplitKeepsOut(Front(s), c, d);
    }
  }

  // For every text that parses, printing and parsing again gives the same identifier, if and only if
  // its registry survives; without a registry always.
  lemma {:induction false} RoundTripIff<V(!new)>(env: Env<V>, s: string)
    requires Printable(env) && Parse(env, s).Ok?
    ensures var id := Parse(env, s).value;
            Parse(env, Show(env, id)) == Ok(id) <==> Survives(env, id.registry)
  {
    hide Split, Located, Printable, Survives, ShowVersion, Prefix;
    var id := Parse(env, s).value;
    var segments := Split(s, '/');
    var parts := Split(Last(segments), ':');
    PartClean(s, 0);
    PartClean(s, 1);
    VersionBack(env, parts[1]);
    LocatedClean(env, Front(segments), parts[0], ParseVersion(env, parts[1]).value);
    assert id.version == ParseVersion(env, parts[1]).value;
    var version := ShowVersion(env, id.version);
    var text := id.name + ":" + version;
    SplitNameVersion(id.name, version);
    Reparsed(env, id, text);
  }

  // The segments a printed identifier is read back from.
  lemma {:induction false} Reparsed<V, W>(env: Env<V>, id: PackageId<W>, text: string)
    requires Clean(id) && Without(text, '/')
    ensures var segments := Split(Prefix(id) + text, '/');
            && Last(segments) == text
            && (Located(env, Front(segments), id.name, id.version) == Ok(id) <==> Survives(env, id.registry))
  {
    hide Split, Located, Survives, Prefix;
    SplitPrefix(id, text);
    LocatedIff(env, id);
    var u := if id.registry.Some? then id.registry.value else [];
    var before := Split(u, '/');
    assert Front(Split(Prefix(id) + text, '/')) == Front(before) + [Last(before) + Group(id)];
  }

  lemma {:induction false} RoundTripMaybeIff<V(!new)>(env: Env<V>, s: string)
    requires Printable(env) && ParseMaybe(env, s).Ok?
    ensures var id := ParseMaybe(env, s).value;
            ParseMaybe(env, ShowMaybe(env, id)) == Ok(id) <==> Survives(env, id.registry)
  {
    hide Split, Located, Printable, Survives, ShowVersion, Prefix;
    var id := ParseMaybe(env, s).value;
    var segments := Split(s, '/');
    var parts := Split(Last(segments), ':');
    PartClean(s, 0);
    if |parts| == 1 {
      LocatedClean<V, Option<PackageVersion<V>>>(env, Front(segments), parts[0], None);
      assert id.name + [] == id.name;
      SplitNone(id.name, ':');
      Reparsed(env, id, id.name);
    } else {
      PartClean(s, 1);
      VersionBack(env, parts[1]);
      LocatedClean(env, Front(segments), parts[0], Some(ParseVersion(env, parts[1]).value));
      assert id.version == Some(ParseVersion(env, parts[1]).value);
      var version := ShowVersion(env, id.version.value);
      assert id.name + (":" + version) == id.name + ":" + version;
      SplitNameVersion(id.name, version);
      Reparsed(env, id, id.name + ":" + version);
    }
  }

  // A registry in normal form that ends in one slash survives.
  lemma {:induction false} FixedPointSurvives<V>(env: Env<V>, u: string)
    requires env.parseUrl(u) == Some(u) && EndsWith(u, '/') && !EndsWith(Front(u), '/')
    ensures Survives(env, Some(u))
  {
  }

  // A doubled slash at the end is lost, if the URL parser keeps both texts apart.
  lemma {:induction false} DoubledSlashLost<V>(env: Env<V>, w: string)
    requires EndsWith(w, '/') && env.parseUrl(w) != Some(w + "/")
    ensures !Survives(env, Some(w + "/"))
  {
    assert Front(w + "/") == w;
  }

  // Three slashes before the group give such a registry, if the URL parser keeps the doubled slash.
  lemma {:induction false} DoubledSlashParses<V(!new)>(
    env: Env<V>, host: string, group: string, name: string, version: string)
    requires Printable(env) && ParseVersion(env, version).Ok?
    requires Without(group, '/') && Without(group, ':') && Without(name, '/') && Without(name, ':')
    requires Without(version, '/') && Without(version, ':')
    requires env.parseUrl(host + "//") == Some(host + "//") && env.parseUrl(host + "/") != Some(host + "//")
    ensures var r := Parse(env, host + "///" + group + "/" + name + ":" + version);
            && r.Ok? && r.value.registry == Some(host + "//")
            && Parse(env, Show(env, r.value)) != r
  {
    var s := host + "///" + group + "/" + name + ":" + version;
    var w := InRegistry(host + "//", group);
    hide Split, Join;
    assert s == WhereText(w) + (name + (":" + version));
    assert Last(host + "//") == '/';
    SpelledParses(env, s, w, name, Some(version));
    hide Parse, Show, Printable, ParseVersion;
    RoundTripIff(env, s);
    assert (host + "/") + "/" == host + "//";
    assert Last(host + "/") == '/';
    DoubledSlashLost(env, host + "/");
  }

  // With registries that end in a slash, the unique form identifies registry, group and name.
  lemma {:induction false} UidUnique<V, W>(a: PackageId<V>, b: PackageId<W>)
    requires Clean(a) && Clean(b) && EndsWith(Registry(a), '/') && EndsWith(Registry(b), '/')
    ensures Uid(a) == Uid(b) <==> Registry(a) == Registry(b) && Group(a) == Group(b) && a.name == b.name
  {
    hide Split, Join, Clean;
    UidParts(a);
    UidParts(b);
    if Uid(a) == Uid(b) {
      SameTail(Split(Front(Registry(a)), '/'), Group(a), a.name, Split(Front(Registry(b)), '/'), Group(b), b.name);
      JoinSplit(Front(Registry(a)), '/');
      JoinSplit(Front(Registry(b)), '/');
      assert Registry(a) == Front(Registry(a)) + "/" && Registry(b) == Front(Registry(b)) + "/";
    }
  }

  lemma {:induction false} SameTail(s: seq<string>, a: string, b: string, t: seq<string>, c: string, d: string)
    requires s + [a, b] == t + [c, d]
    ensures s == t && a == c && b == d
  {
    assert |s| == |t|;
    assert s == (s + [a, b])[..|s|] && t == (t + [c, d])[..|t|];
    assert (s + [a, b])[|s|..] == [a, b] && (t + [c, d])[|t|..] == [c, d];
  }

  lemma {:induction false} UidParts<V>(id: PackageId<V>)
    requires Clean(id) && EndsWith(Registry(id), '/')
    ensures Split(Uid(id), '/') == Split(Front(Registry(id)), '/') + [Group(id), id.name]
  {
    hide Split;
    var w := Front(Registry(id));
    SplitSeparator(w, Group(id), '/');
    SplitSeparator(w + ['/'] + Group(id), id.name, '/');
    assert Uid(id) == w + ['/'] + Group(id) + ['/'] + id.name;
    assert Split(w, '/') + [Group(id)] + [id.name] == Split(w, '/') + [Group(id), id.name];
  }
}
