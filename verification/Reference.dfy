/**
 Container image references, read and printed (internal/supplychain/reference.go).
 */
module Reference {
  import opened Text

  const DEFAULT_REGISTRY := "index.docker.io"
  const DEFAULT_NAMESPACE := "library"
  const DEFAULT_TAG := "latest"

  datatype Reference = Reference(registry: string, repository: string, tag: string, digest: string)
  {
    function String(): string {
      var out := registry + ['/'] + repository;
      if digest != "" then out + ['@'] + digest else out + [':'] + tag
    }
  }

  /** unicode.IsSpace. */
  predicate IsSpace(c: char) {
    || '\t' <= c <= '\r' || c == ' ' || c == '\U{85}' || c == '\U{A0}' || c == '\U{1680}'
    || '\U{2000}' <= c <= '\U{200A}'
    || c == '\U{2028}' || c == '\U{2029}' || c == '\U{202F}' || c == '\U{205F}' || c == '\U{3000}'
  }

  predicate EndsInSpace(s: string) {
    s != "" && IsSpace(s[|s| - 1])
  }

  function TrimLeft(s: string): (r: string)
    ensures |r| <= |s| && r == s[|s| - |r|..]
    ensures r != "" ==> !IsSpace(r[0])
  {
    if s == "" || !IsSpace(s[0]) then s else TrimLeft(s[1..])
  }

  function TrimRight(s: string): (r: string)
    ensures |r| <= |s| && r == s[..|r|]
    ensures !EndsInSpace(r) && (EndsInSpace(s) ==> |r| < |s|)
  {
    if EndsInSpace(s) then TrimRight(s[..|s| - 1]) else s
  }

  /** strings.TrimSpace. */
  function TrimSpace(s: string): (r: string)
    ensures r != "" ==> !IsSpace(r[0])
    ensures !EndsInSpace(r)
  {
    TrimRight(TrimLeft(s))
  }

  /** Whether the part before the first slash is a registry's host. */
  predicate IsHost(head: string) {
    '.' in head || ':' in head || head == "localhost"
  }

  function SplitRegistry(name: string): (string, string) {
    var slash := Index(name, '/');
    if slash == |name| || !IsHost(name[..slash]) then (DEFAULT_REGISTRY, name) else (name[..slash], name[slash + 1..])
  }

  /** The repository and the tag after the last colon, unless a slash comes behind it. */
  function LastColon(name: string): (string, string) {
    var colon := LastIndex(name, ':');
    if colon < 0 || '/' in name[colon + 1..] then (name, "") else (name[..colon], name[colon + 1..])
  }

  /** The defaults filled in. */
  function Complete(registry: string, repository: string, tag: string, digest: string): Reference {
    Reference(
      registry,
      if registry == DEFAULT_REGISTRY && '/' !in repository then DEFAULT_NAMESPACE + ['/'] + repository else repository,
      if tag == "" && digest == "" then DEFAULT_TAG else tag,
      digest)
  }

  function Resolve(name: string, digest: string): Option<Reference> {
    var (registry, remainder) := SplitRegistry(name);
    var (repository, tag) := LastColon(remainder);
    if repository == "" then None else Some(Complete(registry, repository, tag, digest))
  }

  /** The reference an image names; None for the empty image and for one that names no repository. */
  function Parse(image: string): Option<Reference> {
    var trimmed := TrimSpace(image);
    if trimmed == "" then None
    else
      var (name, digest) := CutAt(trimmed);
      Resolve(name, digest)
  }

  /** strings.Cut at the first at-sign. */
  function CutAt(s: string): (parts: (string, string))
    ensures '@' !in parts.0 && parts.0 <= s
    ensures EndsInSpace(parts.1) ==> EndsInSpace(s)
    ensures '@' !in s ==> parts == (s, "")
  {
    var at := Index(s, '@');
    if at < |s| then (s[..at], s[at + 1..]) else (s, "")
  }

  method ParseReference(image: string) returns (result: Option<Reference>)
    ensures result == Parse(image)
  {
    var trimmed := TrimSpace(image);
    if trimmed == "" {
      return None;
    }
    var (name, digest) := CutAt(trimmed);
    result := ResolveName(name, digest);
  }

  method ResolveName(name: string, digest: string) returns (result: Option<Reference>)
    ensures result == Resolve(name, digest)
  {
    var (registry, remainder) := SplitRegistry(name);
    var (repository, tag) := LastColon(remainder);
    if repository == "" {
      return None;
    }
    var reference := FillIn(Reference(registry, repository, tag, digest));
    result := Some(reference);
  }

  method FillIn(parsed: Reference) returns (reference: Reference)
    ensures reference == Complete(parsed.registry, parsed.repository, parsed.tag, parsed.digest)
  {
    reference := parsed;
    if reference.registry == DEFAULT_REGISTRY && '/' !in reference.repository {
      reference := reference.(repository := DEFAULT_NAMESPACE + ['/'] + reference.repository);
    }
    if reference.tag == "" && reference.digest == "" {
      reference := reference.(tag := DEFAULT_TAG);
    }
  }

  // ----- what parsing gives -----

  /** What holds of every reference an image was read as. */
  predicate WellFormed(r: Reference) {
    && IsHost(r.registry) && '/' !in r.registry && '@' !in r.registry && r.registry != "" && !IsSpace(r.registry[0])
    && r.repository != "" && '@' !in r.repository && (r.registry == DEFAULT_REGISTRY ==> '/' in r.repository)
    && ':' !in r.tag && '/' !in r.tag && '@' !in r.tag
    && (r.digest == "" ==> r.tag != "") && !EndsInSpace(r.digest)
  }

  predicate GoodRegistry(registry: string) {
    IsHost(registry) && '/' !in registry && '@' !in registry && registry != "" && !IsSpace(registry[0])
  }

  predicate GoodTag(tag: string) {
    ':' !in tag && '/' !in tag && '@' !in tag
  }

  lemma SplitIsGood(name: string)
    requires '@' !in name && (name != "" ==> !IsSpace(name[0]))
    ensures GoodRegistry(SplitRegistry(name).0) && '@' !in SplitRegistry(name).1
  {
    var slash := Index(name, '/');
    assert '/' !in name[..slash];
    assert DEFAULT_REGISTRY[5] == '.';
  }

  lemma LastColonIsGood(name: string)
    requires '@' !in name
    ensures GoodTag(LastColon(name).1) && '@' !in LastColon(name).0
  {
    var colon := LastIndex(name, ':');
    assert ':' !in name[colon + 1..];
  }

  lemma CompleteIsWellFormed(registry: string, repository: string, tag: string, digest: string)
    requires GoodRegistry(registry) && repository != "" && '@' !in repository && GoodTag(tag) && !EndsInSpace(digest)
    ensures WellFormed(Complete(registry, repository, tag, digest))
  {
    var r := Complete(registry, repository, tag, digest);
    assert '@' !in DEFAULT_NAMESPACE;
    assert '/' in DEFAULT_NAMESPACE + ['/'] + repository;
    assert GoodTag(r.tag);
  }

  lemma ResolvedIsWellFormed(name: string, digest: string)
    requires '@' !in name && !EndsInSpace(digest) && (name != "" ==> !IsSpace(name[0]))
    ensures Resolve(name, digest).Some? ==> WellFormed(Resolve(name, digest).value)
  {
    SplitIsGood(name);
    var (registry, remainder) := SplitRegistry(name);
    LastColonIsGood(remainder);
    var (repository, tag) := LastColon(remainder);
    if repository != "" {
      CompleteIsWellFormed(registry, repository, tag, digest);
    }
  }

  lemma ParsedIsWellFormed(image: string)
    ensures Parse(image).Some? ==> WellFormed(Parse(image).value)
  {
    var trimmed := TrimSpace(image);
    if trimmed != "" {
      var (name, digest) := CutAt(trimmed);
      ResolvedIsWellFormed(name, digest);
    }
  }

  // ----- printing and parsing again -----

  predicate ColonInLastComponent(repository: string) {
    var colon := LastIndex(repository, ':');
    colon >= 0 && '/' !in repository[colon + 1..]
  }

  lemma TrimmedStays(s: string)
    requires s != "" && !IsSpace(s[0]) && !EndsInSpace(s)
    ensures TrimSpace(s) == s
  {
  }

  lemma SplitOfHost(registry: string, rest: string)
    requires IsHost(registry) && '/' !in registry
    ensures SplitRegistry(registry + ['/'] + rest) == (registry, rest)
  {
    var name := registry + ['/'] + rest;
    IndexOfConcat(registry, '/', rest);
    assert name[..|registry|] == registry && name[|registry| + 1..] == rest;
  }

  lemma LastColonOfTagged(repository: string, tag: string)
    requires ':' !in tag && '/' !in tag
    ensures LastColon(repository + [':'] + tag) == (repository, tag)
  {
    var name := repository + [':'] + tag;
    LastIndexOfConcat(repository, ':', tag);
    assert name[..|repository|] == repository && name[|repository| + 1..] == tag;
  }

  lemma ResolveOfTagged(r: Reference)
    requires WellFormed(r) && r.digest == ""
    ensures Resolve(r.registry + ['/'] + r.repository + [':'] + r.tag, "") == Some(r)
  {
    assert r.registry + ['/'] + r.repository + [':'] + r.tag == r.registry + ['/'] + (r.repository + [':'] + r.tag);
    SplitOfHost(r.registry, r.repository + [':'] + r.tag);
    LastColonOfTagged(r.repository, r.tag);
  }

  lemma ResolveOfPinned(r: Reference)
    requires WellFormed(r) && r.digest != ""
    ensures Resolve(r.registry + ['/'] + r.repository, r.digest) == Some(r.(tag := ""))
      <==> !ColonInLastComponent(r.repository)
  {
    SplitOfHost(r.registry, r.repository);
    if ColonInLastComponent(r.repository) {
      ShorterRepository(r);
    }
  }

  lemma ShorterRepository(r: Reference)
    requires WellFormed(r) && r.digest != "" && ColonInLastComponent(r.repository)
    ensures Resolve(r.registry + ['/'] + r.repository, r.digest) != Some(r.(tag := ""))
  {
    SplitOfHost(r.registry, r.repository);
    var colon := LastIndex(r.repository, ':');
    var shorter := r.repository[..colon];
    assert r.repository == shorter + [':'] + r.repository[colon + 1..];
    assert '/' in r.repository ==> '/' in shorter;
  }

  /** Cutting at the first at-sign finds the name and the digest again. */
  lemma CutAtDigest(name: string, digest: string)
    requires '@' !in name
    ensures CutAt(name + ['@'] + digest) == (name, digest)
  {
    IndexOfConcat(name, '@', digest);
    var s := name + ['@'] + digest;
    assert s[..|name|] == name && s[|name| + 1..] == digest;
  }

  lemma PinnedRoundTrip(r: Reference)
    requires WellFormed(r) && r.digest != ""
    ensures Parse(r.String()) == Some(r.(tag := "")) <==> !ColonInLastComponent(r.repository)
  {
    var name := r.registry + ['/'] + r.repository;
    TrimmedStays(r.String());
    CutAtDigest(name, r.digest);
    ResolveOfPinned(r);
  }

  /** Without a digest nothing read from an image ends its tag in white space. */
  lemma UnpinnedTagsAreTrimmed(image: string)
    requires '@' !in TrimSpace(image) && Parse(image).Some?
    ensures !EndsInSpace(Parse(image).value.tag)
  {
    var name := TrimSpace(image);
    var remainder := SplitRegistry(name).1;
    SplitKeepsTheEnd(name);
    LastColonKeepsTheEnd(remainder);
    CompleteKeepsTheTag(SplitRegistry(name).0, LastColon(remainder).0, LastColon(remainder).1);
  }

  lemma SplitKeepsTheEnd(name: string)
    requires !EndsInSpace(name)
    ensures !EndsInSpace(SplitRegistry(name).1)
  {
  }

  lemma LastColonKeepsTheEnd(name: string)
    requires !EndsInSpace(name)
    ensures !EndsInSpace(LastColon(name).1)
  {
  }

  lemma CompleteKeepsTheTag(registry: string, repository: string, tag: string)
    requires !EndsInSpace(tag)
    ensures !EndsInSpace(Complete(registry, repository, tag, "").tag)
  {
    assert DEFAULT_TAG[5] == 't';
  }

  lemma TaggedRoundTrip(r: Reference)
    requires WellFormed(r) && r.digest == ""
    ensures Parse(r.String()) == Some(r) <==> !EndsInSpace(r.tag)
  {
    var s := r.String();
    assert '@' !in s && s[0] == r.registry[0] && s[|s| - 1] == r.tag[|r.tag| - 1];
    if EndsInSpace(r.tag) {
      assert '@' !in TrimLeft(s);
      assert '@' !in TrimSpace(s);
      if Parse(s).Some? {
        UnpinnedTagsAreTrimmed(s);
      }
    } else {
      TrimmedStays(s);
      ResolveOfTagged(r);
    }
  }

  /** When printing and reading again gives the reference back. */
  predicate Survives(r: Reference) {
    if r.digest != "" then !ColonInLastComponent(r.repository) else !EndsInSpace(r.tag)
  }

  /**
   For every image that is accepted: printing what it was read as and reading that gives the same reference, its tag
   cleared when there is a digest, if and only if a pinned reference has no colon in the last component of its
   repository and an unpinned one has no tag that ends in white space.
   */
  lemma ReadingBackWhatWasPrinted(image: string)
    ensures match Parse(image)
      case None => true
      case Some(r) => Parse(r.String()) == Some(if r.digest != "" then r.(tag := "") else r) <==> Survives(r)
  {
    ParsedIsWellFormed(image);
    match Parse(image) {
      case None =>
      case Some(r) =>
        if r.digest != "" {
          PinnedRoundTrip(r);
        } else {
          TaggedRoundTrip(r);
        }
    }
  }

  /** A pinned image with a colon in its last component and an unpinned one with a space before its at-sign. */
  lemma BothExceptionsOccur(pinned: string, unpinned: string)
    requires pinned == "x.y" + ['/'] + ("a:b" + [':'] + "c") + ['@'] + "d"
    requires unpinned == "x.y" + ['/'] + ("a" + [':'] + "b ") + ['@'] + ""
    ensures Parse(pinned) == Some(Reference("x.y", "a:b", "c", "d")) && !Survives(Reference("x.y", "a:b", "c", "d"))
    ensures Parse(unpinned) == Some(Reference("x.y", "a", "b ", "")) && !Survives(Reference("x.y", "a", "b ", ""))
  {
    var host := "x.y";
    assert host[1] == '.';
    var inner := "a:b";
    assert inner == "a" + [':'] + "b";
    LastColonOfTagged("a", "b");
    LastIndexOfConcat("a", ':', "b");
    var tag := "b ";
    assert tag[1] == ' ';
    assert |DEFAULT_REGISTRY| == 15 && |host| == 3;
    ParseOfParts(host, inner, "c", "d", pinned);
    ParseOfParts(host, "a", tag, "", unpinned);
  }

  /** Reading a name with registry, repository and tag before an at-sign. */
  lemma ParseOfParts(registry: string, repository: string, tag: string, digest: string, image: string)
    requires IsHost(registry) && '/' !in registry && '@' !in registry && registry != "" && !IsSpace(registry[0])
    requires registry != DEFAULT_REGISTRY && repository != "" && '@' !in repository && tag != "" && '@' !in tag
    requires ':' !in tag && '/' !in tag && !EndsInSpace(digest)
    requires image == registry + ['/'] + (repository + [':'] + tag) + ['@'] + digest
    ensures Parse(image) == Some(Reference(registry, repository, tag, digest))
  {
    var name := registry + ['/'] + (repository + [':'] + tag);
    TrimmedStays(image);
    CutAtDigest(name, digest);
    SplitOfHost(registry, repository + [':'] + tag);
    LastColonOfTagged(repository, tag);
  }

  // ----- where an image comes from -----

  /** The white space of the Unicode standard. */
  lemma SpacesAreTheStandardOnes(c: char)
    ensures IsSpace(c) <==>
      || c == '\t' || c == '\n' || c == '\U{B}' || c == '\U{C}' || c == '\r' || c == ' '
      || c == '\U{85}' || c == '\U{A0}' || c == '\U{1680}' || c == '\U{2000}' || c == '\U{2001}' || c == '\U{2002}'
      || c == '\U{2003}' || c == '\U{2004}' || c == '\U{2005}' || c == '\U{2006}' || c == '\U{2007}'
      || c == '\U{2008}' || c == '\U{2009}' || c == '\U{200A}' || c == '\U{2028}' || c == '\U{2029}'
      || c == '\U{202F}' || c == '\U{205F}' || c == '\U{3000}'
  {
  }

  /** Nothing but white space names no image. */
  lemma {:induction false} BlankImagesAreRefused(image: string)
    requires forall i :: 0 <= i < |image| ==> IsSpace(image[i])
    ensures Parse(image) == None
  {
    if image != "" {
      BlankIsTrimmed(image);
    }
  }

  lemma {:induction false} BlankIsTrimmed(s: string)
    requires forall i :: 0 <= i < |s| ==> IsSpace(s[i])
    ensures TrimLeft(s) == ""
  {
    if s != "" {
      BlankIsTrimmed(s[1..]);
    }
  }

  /** The host of a registry: it has a dot or a colon in it, or is the local host. */
  predicate NamesAHost(head: string) {
    head == "localhost" || exists i :: 0 <= i < |head| && (head[i] == '.' || head[i] == ':')
  }

  /** A name is taken to begin with a registry if and only if what comes before its first slash is a host. */
  lemma RegistryOf(head: string, rest: string)
    requires '/' !in head
    ensures SplitRegistry(head + ['/'] + rest) ==
      if NamesAHost(head) then (head, rest) else ("index.docker.io", head + ['/'] + rest)
  {
    var name := head + ['/'] + rest;
    IndexOfConcat(head, '/', rest);
    assert name[..|head|] == head && name[|head| + 1..] == rest;
  }

  lemma NoRegistry(name: string)
    requires '/' !in name
    ensures SplitRegistry(name) == ("index.docker.io", name)
  {
  }

  /** What is left of an image when its registry is taken off. */
  function PathText(path: string, tag: Option<string>): string {
    if tag.Some? then path + [':'] + tag.value else path
  }

  lemma PathAndTag(path: string, tag: Option<string>)
    requires ':' !in path && (tag.Some? ==> ':' !in tag.value && '/' !in tag.value)
    ensures LastColon(PathText(path, tag)) == (path, if tag.Some? then tag.value else "")
  {
    if tag.Some? {
      LastColonOfTagged(path, tag.value);
    }
  }

  /** A name as one writes it: perhaps a registry, a path, perhaps a tag. */
  function NameText(registry: Option<string>, path: string, tag: Option<string>): string {
    if registry.Some? then registry.value + ['/'] + PathText(path, tag) else PathText(path, tag)
  }

  /** The parts are what they are taken for: no separator where it would be read as another. */
  predicate PlainParts(registry: Option<string>, path: string, tag: Option<string>) {
    && path != "" && ':' !in path
    && (tag.Some? ==> tag.value != "" && ':' !in tag.value && '/' !in tag.value)
    && (registry.Some? ==> '/' !in registry.value && NamesAHost(registry.value))
    && (registry.None? ==> forall i :: 0 <= i < |path| && path[i] == '/' && '/' !in path[..i] ==>
        !NamesAHost(path[..i]))
  }

  lemma SplitOfParts(registry: Option<string>, path: string, tag: Option<string>)
    requires PlainParts(registry, path, tag)
    ensures SplitRegistry(NameText(registry, path, tag)) ==
      (if registry.Some? then registry.value else "index.docker.io", PathText(path, tag))
  {
    if registry.Some? {
      RegistryOf(registry.value, PathText(path, tag));
    } else if '/' !in path {
      NoRegistry(PathText(path, tag));
    } else {
      PathOfSeveral(path, tag);
    }
  }

  lemma PathOfSeveral(path: string, tag: Option<string>)
    requires '/' in path && forall i :: 0 <= i < |path| && path[i] == '/' && '/' !in path[..i] ==>
      !NamesAHost(path[..i])
    ensures SplitRegistry(PathText(path, tag)) == ("index.docker.io", PathText(path, tag))
  {
    var slash := Index(path, '/');
    assert path[slash] == '/' && '/' !in path[..slash];
    assert path == path[..slash] + ['/'] + path[slash + 1..];
    PathWithoutRegistry(path[..slash], path[slash + 1..], tag);
  }

  lemma PathWithoutRegistry(head: string, rest: string, tag: Option<string>)
    requires '/' !in head && !NamesAHost(head)
    ensures var text := PathText(head + ['/'] + rest, tag); SplitRegistry(text) == ("index.docker.io", text)
  {
    assert PathText(head + ['/'] + rest, tag) == head + ['/'] + PathText(rest, tag);
    RegistryOf(head, PathText(rest, tag));
  }

  /** What such a name comes to. */
  function ReadAs(registry: Option<string>, path: string, tag: Option<string>, digest: string): Reference {
    Reference(
      if registry.Some? then registry.value else "index.docker.io",
      if (registry.None? || registry.value == "index.docker.io") && '/' !in path then "library/" + path else path,
      if tag.Some? then tag.value else if digest != "" then "" else "latest",
      digest)
  }

  lemma ResolveInSteps(name: string, digest: string, registry: string, remainder: string, repository: string,
      tag: string)
    requires SplitRegistry(name) == (registry, remainder) && LastColon(remainder) == (repository, tag)
    ensures Resolve(name, digest)
         == if repository == "" then None else Some(Complete(registry, repository, tag, digest))
  {
  }

  lemma CompleteByHand(registry: string, path: string, tag: string, digest: string)
    ensures Complete(registry, path, tag, digest) == Reference(
      registry,
      if registry == "index.docker.io" && '/' !in path then "library/" + path else path,
      if tag != "" then tag else if digest != "" then "" else "latest",
      digest)
  {
    assert DEFAULT_NAMESPACE + ['/'] + path == "library/" + path;
  }

  lemma ResolveOfParts(registry: Option<string>, path: string, tag: Option<string>, digest: string)
    requires PlainParts(registry, path, tag)
    ensures Resolve(NameText(registry, path, tag), digest) == Some(ReadAs(registry, path, tag, digest))
  {
    var host, written := if registry.Some? then registry.value else "index.docker.io", if tag.Some? then tag.value
        else "";
    SplitOfParts(registry, path, tag);
    PathAndTag(path, tag);
    ResolveInSteps(NameText(registry, path, tag), digest, host, PathText(path, tag), path, written);
    CompleteByHand(host, path, written, digest);
  }

  /** The name and the digest, if there is one. */
  lemma CutOfParts(name: string, digest: Option<string>)
    requires '@' !in name && (digest.Some? ==> digest.value != "")
    ensures CutAt(name + if digest.Some? then ['@'] + digest.value else "")
         == (name, if digest.Some? then digest.value else "")
  {
    if digest.Some? {
      CutAtDigest(name, digest.value);
      assert name + ['@'] + digest.value == name + (['@'] + digest.value);
    } else {
      assert name + "" == name;
    }
  }

  /**
   An image is read as it is written: the registry named, or index.docker.io; there a path of one part is one of the
   library's; the tag named, or latest when neither a tag nor a digest is.
   */
  lemma ImagesComeFromWhereTheySay(registry: Option<string>, path: string, tag: Option<string>, digest: Option<string>,
      image: string)
    requires PlainParts(registry, path, tag) && '@' !in NameText(registry, path, tag)
    requires digest.Some? ==> digest.value != ""
    requires TrimSpace(image) == NameText(registry, path, tag) + if digest.Some? then ['@'] + digest.value else ""
    ensures Parse(image) == Some(ReadAs(registry, path, tag, if digest.Some? then digest.value else ""))
  {
    CutOfParts(NameText(registry, path, tag), digest);
    ResolveOfParts(registry, path, tag, if digest.Some? then digest.value else "");
  }

  /** A name without a path is refused, whatever its registry, tag or digest. */
  lemma NoPathNoImage(registry: string, tag: string)
    requires '/' !in registry && NamesAHost(registry) && ':' !in tag && '/' !in tag
    ensures Resolve(registry + ['/'] + ([':'] + tag), "") == None && Resolve(registry + ['/'], "") == None
  {
    RegistryOf(registry, [':'] + tag);
    RegistryOf(registry, "");
    LastColonOfTagged("", tag);
    assert "" + [':'] + tag == [':'] + tag;
    assert registry + ['/'] + "" == registry + ['/'];
  }
}
