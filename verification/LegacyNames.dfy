/**
 * The resource names of legacy events and how they are split into a source and a subject. Each
 * regular expression of the original is a predicate: the text is the concatenation of the
 * literals and the captured groups.
 */
module LegacyNames {
  import opened Wrappers
  import opened Text
  import opened StorageEvents

  /** The group `[^/]+`. */
  predicate IsSegment(s: string) {
    s != "" && '/' !in s
  }

  /** The group `.+`: a dot does not match a line terminator. */
  predicate IsLine(s: string) {
    s != "" && '\n' !in s && '\r' !in s
  }

  predicate IsDigits(s: string) {
    forall i :: 0 <= i < |s| ==> '0' <= s[i] <= '9'
  }

  /** Matching `prefix([^/]+)infix(.+)` against the whole of `s`. */
  function Groups(s: string, prefix: string, infix: string): Option<(string, string)> {
    if !(prefix <= s) then None
    else
      var rest := s[|prefix|..];
      var p := Find(rest, '/');
      if IsSegment(rest[..p]) && infix <= rest[p..] && IsLine(rest[p + |infix|..])
      then Some((rest[..p], rest[p + |infix|..]))
      else None
  }

  lemma FindAfterSegment(a: string, rest: string)
    requires '/' !in a && rest != "" && rest[0] == '/'
    ensures Find(a + rest, '/') == |a|
  {
    assert (a + rest)[|a|] == '/';
    assert forall i :: 0 <= i < |a| ==> (a + rest)[i] == a[i];
  }

  lemma GroupsOfText(prefix: string, infix: string, a: string, b: string)
    requires infix != "" && infix[0] == '/' && IsSegment(a) && IsLine(b)
    ensures Groups(prefix + a + infix + b, prefix, infix) == Some((a, b))
  {
    var s, rest := prefix + a + infix + b, a + (infix + b);
    assert s[|prefix|..] == rest;
    FindAfterSegment(a, infix + b);
    assert rest[..|a|] == a && rest[|a|..] == infix + b && rest[|a| + |infix|..] == b;
  }

  lemma Reassembled(s: string, prefix: string, infix: string, p: nat)
    requires prefix <= s && p <= |s| - |prefix| && infix <= s[|prefix|..][p..]
    ensures var rest := s[|prefix|..];
            p + |infix| <= |rest| && s == prefix + rest[..p] + infix + rest[p + |infix|..]
  {
    var rest := s[|prefix|..];
    var tail := rest[p..];
    assert s == prefix + rest && rest == rest[..p] + tail;
    assert tail == infix + tail[|infix|..] && tail[|infix|..] == rest[p + |infix|..];
  }

  lemma TextOfGroups(s: string, prefix: string, infix: string)
    requires Groups(s, prefix, infix).Some?
    ensures var (a, b) := Groups(s, prefix, infix).value;
            s == prefix + a + infix + b && IsSegment(a) && IsLine(b)
  {
    Reassembled(s, prefix, infix, Find(s[|prefix|..], '/'));
  }

  /** The groups are the only decomposition of the text that the expression admits. */
  lemma GroupsAreExact(s: string, prefix: string, infix: string, a: string, b: string)
    requires infix != "" && infix[0] == '/'
    ensures Groups(s, prefix, infix) == Some((a, b)) <==>
            s == prefix + a + infix + b && IsSegment(a) && IsLine(b)
  {
    hide Groups;
    if IsSegment(a) && IsLine(b) {
      GroupsOfText(prefix, infix, a, b);
    }
    if Groups(s, prefix, infix).Some? {
      TextOfGroups(s, prefix, infix);
    }
  }

  /** Matching `head([^/]+)first([^/]+)second(.+)` against the whole of `s`. */
  function ThreeGroups(s: string, head: string, first: string, second: string)
    : Option<(string, string, string)>
  {
    if !(head <= s) then None
    else
      var rest := s[|head|..];
      var p := Find(rest, '/');
      match Groups(rest[p..], first, second)
      case None => None
      case Some((b, c)) => if IsSegment(rest[..p]) then Some((rest[..p], b, c)) else None
  }

  lemma ThreeGroupsAreExact(s: string, head: string, first: string, second: string,
                            a: string, b: string, c: string)
    requires first != "" && first[0] == '/' && second != "" && second[0] == '/'
    ensures ThreeGroups(s, head, first, second) == Some((a, b, c)) <==>
            && s == head + a + (first + b + second + c)
            && IsSegment(a) && IsSegment(b) && IsLine(c)
  {
    hide Groups;
    var tail := first + b + second + c;
    if head <= s {
      var rest := s[|head|..];
      var p := Find(rest, '/');
      GroupsAreExact(rest[p..], first, second, b, c);
      assert s == head + rest && rest == rest[..p] + rest[p..];
      assert s == head + rest[..p] + rest[p..];
    }
    if s == head + a + tail && IsSegment(a) {
      assert s == head + (a + tail);
      assert s[|head|..] == a + tail;
      FindAfterSegment(a, tail);
      assert (a + tail)[..|a|] == a && (a + tail)[|a|..] == tail;
    }
  }

  // Cloud Storage

  /** One `#` with digits at the end of the text is removed. */
  function WithoutGeneration(s: string): (r: string)
    ensures r == s || exists g :: IsDigits(g) && s == r + "#" + g
  {
    var p := FindLast(s, '#');
    if p < |s| && IsDigits(s[p + 1..]) then
      assert s == s[..p] + "#" + s[p + 1..];
      s[..p]
    else s
  }

  /** The source and subject for a storage resource; `None` when its form is another. */
  function StorageName(source: string): Option<(string, string)> {
    match Groups(source, BUCKETS, "/" + OBJECTS)
    case None => None
    case Some((bucket, rest)) => Some((BUCKETS + bucket, WithoutGeneration(OBJECTS + rest)))
  }

  lemma GenerationIsRemoved(s: string, g: string)
    requires IsDigits(g)
    ensures WithoutGeneration(s + "#" + g) == s
  {
    var t := s + "#" + g;
    assert t[|s|] == '#';
    assert forall i :: |s| < i < |t| ==> t[i] == g[i - |s| - 1];
    assert t[|s| + 1..] == g && t[..|s|] == s;
  }

  /** The text is kept exactly when it does not end in `#` and digits. */
  lemma GenerationIsKept(s: string)
    ensures WithoutGeneration(s) == s <==> !exists t, g :: IsDigits(g) && s == t + "#" + g
  {
    if t, g :| IsDigits(g) && s == t + "#" + g {
      GenerationIsRemoved(t, g);
      assert |t| < |s|;
    }
  }

  lemma LineWithGeneration(name: string, generation: string)
    requires IsDigits(generation) && '\n' !in name && '\r' !in name
    ensures IsLine(name + "#" + generation)
  {
  }

  lemma NameAndGeneration(prefix: string, last: string, bucket: string, name: string,
                          generation: string)
    requires IsSegment(bucket) && IsDigits(generation)
    requires '\n' !in name && '\r' !in name
    ensures var rest := name + "#" + generation;
            && Groups(prefix + bucket + ("/" + last) + rest, prefix, "/" + last) == Some((bucket, rest))
            && WithoutGeneration(last + rest) == last + name
  {
    hide Groups, WithoutGeneration, IsDigits;
    LineWithGeneration(name, generation);
    GroupsOfText(prefix, "/" + last, bucket, name + "#" + generation);
    GenerationIsRemoved(last + name, generation);
    assert last + (name + "#" + generation) == last + name + "#" + generation;
  }

  /** A full storage resource gives its bucket and its object, without the generation. */
  lemma StorageNameOfResource(bucket: string, name: string, generation: string)
    requires IsSegment(bucket) && IsDigits(generation)
    requires '\n' !in name && '\r' !in name
    ensures StorageName(BUCKETS + bucket + ("/" + OBJECTS) + (name + "#" + generation)) ==
            Some((BUCKETS + bucket, OBJECTS + name))
  {
    hide Groups, WithoutGeneration;
    NameAndGeneration(BUCKETS, OBJECTS, bucket, name, generation);
  }

  /** `short` is `long` without one generation, if it ends in one. */
  ghost predicate IsWithoutGeneration(long: string, short: string) {
    || (short == long && !exists t, g :: IsDigits(g) && long == t + "#" + g)
    || (exists g :: IsDigits(g) && long == short + "#" + g)
  }

  lemma WithoutGenerationIsExact(long: string, short: string)
    ensures WithoutGeneration(long) == short <==> IsWithoutGeneration(long, short)
  {
    GenerationIsKept(long);
    if g :| IsDigits(g) && long == short + "#" + g {
      GenerationIsRemoved(short, g);
    }
    hide WithoutGeneration;
  }

  /** Exactly which resources are split, and into what. */
  lemma StorageNameIsExact(resource: string, source: string, subject: string)
    ensures StorageName(resource) == Some((source, subject)) <==>
            exists bucket, name ::
              && IsSegment(bucket) && IsLine(name)
              && resource == "//storage.googleapis.com/projects/_/buckets/" + bucket
                             + ("/" + "objects/") + name
              && source == "//storage.googleapis.com/projects/_/buckets/" + bucket
              && IsWithoutGeneration("objects/" + name, subject)
  {
    hide Groups, WithoutGeneration, IsWithoutGeneration, IsSegment, IsLine;
    if Groups(resource, BUCKETS, "/" + OBJECTS).Some? {
      var (bucket, name) := Groups(resource, BUCKETS, "/" + OBJECTS).value;
      GroupsAreExact(resource, BUCKETS, "/" + OBJECTS, bucket, name);
      WithoutGenerationIsExact(OBJECTS + name, subject);
    }
    if bucket, name :|
        && IsSegment(bucket) && IsLine(name)
        && resource == BUCKETS + bucket + ("/" + OBJECTS) + name
        && source == BUCKETS + bucket
        && IsWithoutGeneration(OBJECTS + name, subject) {
      GroupsAreExact(resource, BUCKETS, "/" + OBJECTS, bucket, name);
      WithoutGenerationIsExact(OBJECTS + name, subject);
    }
  }

  lemma LiteralPrefixIsKept(prefix: string, rest: string)
    requires '#' !in prefix
    ensures prefix <= WithoutGeneration(prefix + rest)
  {
    var s := prefix + rest;
    var p := FindLast(s, '#');
    assert forall i :: 0 <= i < |prefix| ==> s[i] == prefix[i];
    assert s[..|prefix|] == prefix;
    assert |prefix| <= p ==> s[..p] == prefix + rest[..p - |prefix|];
  }

  lemma RejoinTwo(s: string, prefix: string, infix: string, last: string, a: string, b: string)
    requires infix != "" && infix[0] == '/' && infix == "/" + last
    requires Groups(s, prefix, infix) == Some((a, b))
    ensures s == prefix + a + "/" + (last + b)
    ensures forall subject, g :: last + b == subject + "#" + g ==>
              s == prefix + a + "/" + subject + "#" + g
  {
    GroupsAreExact(s, prefix, infix, a, b);
  }

  /** Nothing but one generation is ever lost from a storage resource. */
  lemma StorageNameLosesGenerationOnly(original: string, source: string, subject: string)
    requires StorageName(original) == Some((source, subject))
    ensures exists bucket :: IsSegment(bucket) && source == BUCKETS + bucket
    ensures OBJECTS <= subject
    ensures || original == source + "/" + subject
            || exists g :: IsDigits(g) && original == source + "/" + subject + "#" + g
  {
    hide WithoutGeneration;
    var (bucket, rest) := Groups(original, BUCKETS, "/" + OBJECTS).value;
    hide Groups;
    GroupsAreExact(original, BUCKETS, "/" + OBJECTS, bucket, rest);
    RejoinTwo(original, BUCKETS, "/" + OBJECTS, OBJECTS, bucket, rest);
    LiteralPrefixIsKept(OBJECTS, rest);
  }

  // Firebase Realtime Database

  const DATABASE := "//firebasedatabase.googleapis.com/projects/_/instances/"
  const LOCATIONS := "//firebasedatabase.googleapis.com/projects/_/locations/"
  const REFS := "refs/"

  /** The location that a domain tells: its first label, but for the oldest domain. */
  function Location(domain: string): Result<string> {
    if domain == "firebaseio.com" then Ok("us-central1")
    else
      var p := Find(domain, '.');
      if p < |domain| then Ok(domain[..p])
      else
        Thrown("Invalid or unknown format for `domain` attribute (" + domain
               + ") firebase database event")
  }

  function DatabaseSource(location: string, instance: string): string {
    LOCATIONS + location + "/instances/" + instance
  }

  /** The source and subject for a database resource; `None` when its form is another. */
  function DatabaseName(location: string, source: string): Option<(string, string)> {
    match Groups(source, DATABASE, "/" + REFS)
    case None => None
    case Some((instance, ref)) => Some((DatabaseSource(location, instance), REFS + ref))
  }

  /** No two (location, resource) pairs share a name, whatever `/` the location holds. */
  lemma DatabaseNameIsInjective(location: string, source: string, location': string, source': string)
    requires DatabaseName(location, source).Some?
    requires DatabaseName(location, source) == DatabaseName(location', source')
    ensures location == location' && source == source'
  {
    var (instance, ref) := Groups(source, DATABASE, "/" + REFS).value;
    var (instance', ref') := Groups(source', DATABASE, "/" + REFS).value;
    GroupsAreExact(source, DATABASE, "/" + REFS, instance, ref);
    GroupsAreExact(source', DATABASE, "/" + REFS, instance', ref');
    assert ref == (REFS + ref)[|REFS|..] && ref' == (REFS + ref')[|REFS|..];
    var head, head' := LOCATIONS + location + "/instances", LOCATIONS + location' + "/instances";
    assert DatabaseSource(location, instance) == head + ['/'] + instance;
    assert DatabaseSource(location', instance') == head' + ['/'] + instance';
    SplitAtLast(head, instance, head', instance', '/');
    assert location == head[|LOCATIONS|..|head| - 10];
    assert location' == head'[|LOCATIONS|..|head'| - 10];
  }

  lemma GroupsOfResource(prefix: string, last: string, a: string, b: string)
    requires IsSegment(a) && IsLine(b)
    ensures Groups(prefix + a + ("/" + last) + b, prefix, "/" + last) == Some((a, b))
  {
    GroupsOfText(prefix, "/" + last, a, b);
  }

  /** A database resource is split into its instance, which gets the location, and its reference. */
  lemma DatabaseNameOfResource(location: string, instance: string, ref: string)
    requires IsSegment(instance) && IsLine(ref)
    ensures DatabaseName(
              location,
              "//firebasedatabase.googleapis.com/projects/_/instances/" + instance + ("/" + "refs/") + ref)
            == Some(("//firebasedatabase.googleapis.com/projects/_/locations/" + location
                     + "/instances/" + instance,
                     "refs/" + ref))
  {
    hide Groups;
    GroupsOfResource(DATABASE, REFS, instance, ref);
  }

  /** Any other resource keeps its name. */
  lemma DatabaseNameNeedsForm(location: string, source: string)
    ensures DatabaseName(location, source).Some? <==>
            exists instance, ref ::
              IsSegment(instance) && IsLine(ref) && source == DATABASE + instance + ("/" + REFS) + ref
  {
    hide Groups;
    if Groups(source, DATABASE, "/" + REFS).Some? {
      var (instance, ref) := Groups(source, DATABASE, "/" + REFS).value;
      GroupsAreExact(source, DATABASE, "/" + REFS, instance, ref);
    }
    if instance, ref :|
        IsSegment(instance) && IsLine(ref) && source == DATABASE + instance + ("/" + REFS) + ref {
      GroupsAreExact(source, DATABASE, "/" + REFS, instance, ref);
    }
  }

  /** A location is found exactly for the domains that have a dot. */
  lemma LocationOfDomain(domain: string)
    ensures Location(domain).Ok? <==> '.' in domain
    ensures domain == "firebaseio.com" ==> Location(domain) == Ok("us-central1")
    ensures domain != "firebaseio.com" && Location(domain).Ok? ==>
              '.' !in Location(domain).value && Location(domain).value + "." <= domain
  {
    var p := Find(domain, '.');
    assert domain == "firebaseio.com" ==> domain[10] == '.';
    if p < |domain| {
      assert domain[..p] + "." == domain[..p + 1];
    }
  }

  // Firestore

  const FIRESTORE := "//" + "firestore.googleapis.com" + "/"
  const DOCUMENTS := "documents/"

  const PROJECTS := "projects/"
  const DATABASES := "/databases/"

  /** The source and subject for a Firestore resource; `None` when its form is another. */
  function FirestoreName(resource: string): Option<(string, string)> {
    match ThreeGroups(resource, PROJECTS, DATABASES, "/" + DOCUMENTS)
    case None => None
    case Some((project, database, document)) =>
      Some((FIRESTORE + PROJECTS + project + DATABASES + database, DOCUMENTS + document))
  }

  lemma RejoinThree(s: string, f: string, head: string, first: string, second: string,
                    last: string, a: string, b: string, c: string)
    requires first != "" && first[0] == '/' && second != "" && second[0] == '/'
    requires second == "/" + last
    requires ThreeGroups(s, head, first, second) == Some((a, b, c))
    ensures f + s == (f + head + a + first + b) + "/" + (last + c)
  {
    hide ThreeGroups;
    ThreeGroupsAreExact(s, head, first, second, a, b, c);
    assert f + s == f + head + a + first + b + ("/" + last) + c;
  }

  /** A split Firestore resource is recovered from its source and its subject. */
  lemma FirestoreNameLosesNothing(resource: string, source: string, subject: string)
    requires FirestoreName(resource) == Some((source, subject))
    ensures FIRESTORE + resource == source + "/" + subject
  {
    hide ThreeGroups;
    var (project, database, document) :=
      ThreeGroups(resource, PROJECTS, DATABASES, "/" + DOCUMENTS).value;
    RejoinThree(resource, FIRESTORE, PROJECTS, DATABASES, "/" + DOCUMENTS, DOCUMENTS,
                project, database, document);
  }

  /** A Firestore resource is split before its documents. */
  lemma FirestoreNameOfResource(project: string, database: string, document: string)
    requires IsSegment(project) && IsSegment(database) && IsLine(document)
    ensures FirestoreName("projects/" + project
                          + ("/databases/" + database + ("/" + "documents/") + document))
            == Some(("//" + "firestore.googleapis.com" + "/" + "projects/" + project
                     + "/databases/" + database,
                     "documents/" + document))
  {
    hide ThreeGroups;
    var resource := PROJECTS + project + (DATABASES + database + ("/" + DOCUMENTS) + document);
    ThreeGroupsAreExact(resource, PROJECTS, DATABASES, "/" + DOCUMENTS, project, database, document);
  }
}
