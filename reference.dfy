/** Normalisation of container-image names (util/image/reference.go): splitting a repository
    name into registry host and remote path, rewriting the alias host, adding and removing the
    implicit `library/` namespace of official images, and the three reference variants
    Named / Tagged / Canonical with their default tag. */
module ImageReference {
  import opened Wrappers
  import opened GoStrings

  /** The tag given to a reference that has neither a tag nor a digest. */
  const DefaultTag := "latest"
  /** The alias of the default registry; it is rewritten to DefaultRegistryHostname. */
  const WrongRegistryHostname := "docker.io"
  /** The built-in registry. */
  const DefaultRegistryHostname := "index.docker.io"
  /** Scheme of registries; declared by the source but not used by the modelled operations. */
  const DefaultScheme := "https"
  /** The namespace of official images on the default registry. */
  const DefaultRepoPrefix := "library/"

  /** Why a reference was refused. */
  datatype ErrorKind =
    | InvalidReference   // the distribution grammar rejected the string
    | NotLowercase       // the repository path holds an upper-case letter
    | HexadecimalName    // the name is a 64-character image ID
    | GrammarRejected    // the distribution library refused the name, tag or digest

  /** What the distribution grammar extracts from a reference string: the name and whichever
      of a tag and a digest were written (either, both or neither). */
  datatype ParsedName = ParsedName(name: string, tag: Option<string>, digest: Option<string>)

  /** The distribution library, on which this code builds, as a set of operations:
      `reference.ParseNormalizedNamed`, and whether `reference.WithName`, `reference.WithTag`
      and `reference.WithDigest` accept their argument. */
  datatype GrammarOps = GrammarOps(
    parseNormalizedNamed: string -> Option<ParsedName>,
    nameValid: string -> bool,
    tagValid: string -> bool,
    digestValid: string -> bool)

  /** The library's tag grammar accepts the default tag; WithDefaultTag discards the error of
      attaching it, so the source relies on this. */
  type Grammar = g: GrammarOps | g.tagValid(DefaultTag)
    witness GrammarOps(s => None, s => true, s => true, s => true)

  /** A reference in one of its three forms. `name` is the stored, normalised repository name;
      tag and digest never occur together. */
  datatype Named =
    | Plain(name: string)
    | Tagged(name: string, tag: string)
    | Canonical(name: string, digest: string)
  {
    /** Registry host re-derived from the stored name. */
    function Hostname(): (h: string)
      ensures h != WrongRegistryHostname
    {
      SplitHostname(name).hostname
    }

    /** Repository path re-derived from the stored name. */
    function RemoteName(): (p: string)
      ensures Hostname() == DefaultRegistryHostname ==> '/' in p
    {
      SplitHostname(name).remoteName
    }

    /** Host and path joined: "index.docker.io/library/ubuntu". Splitting it again gives back
        the same host and path, so the joined form stands for the stored name. */
    function FullName(): (s: string)
      ensures SplitHostname(s) == HostPath(Hostname(), RemoteName())
    {
      SplitOfJoined(name);
      Hostname() + "/" + RemoteName()
    }
  }

  /** A name split into registry host and remote path. */
  datatype HostPath = HostPath(hostname: string, remoteName: string)

  /** The first path segment names a host when it contains `.` or `:` or is `localhost`. */
  predicate LooksLikeHost(segment: string) {
    ContainsAny(segment, ".:") || segment == "localhost"
  }

  lemma HostAt(segment: string, k: nat)
    requires k < |segment| && segment[k] in ".:"
    ensures LooksLikeHost(segment)
  {
  }

  /** splitHostname: the first segment is the host only if it looks like one; otherwise the
      default registry is meant. The alias host is rewritten, and a single-segment path on the
      default registry gets the `library/` namespace. */
  function SplitHostname(name: string): (r: HostPath)
    ensures r.hostname != WrongRegistryHostname
    ensures r.hostname == DefaultRegistryHostname ==> '/' in r.remoteName
  {
    var i := IndexRune(name, '/');
    var explicit :=
      if i == -1 || !LooksLikeHost(name[..i]) then HostPath(DefaultRegistryHostname, name)
      else HostPath(name[..i], name[i + 1..]);
    var hostname :=
      if explicit.hostname == WrongRegistryHostname then DefaultRegistryHostname else explicit.hostname;
    var remoteName :=
      if hostname == DefaultRegistryHostname && '/' !in explicit.remoteName
      then DefaultRepoPrefix + explicit.remoteName
      else explicit.remoteName;
    HostPath(hostname, remoteName)
  }

  /** Host and path, joined with `/`, split back into themselves. */
  lemma SplitOfJoined(name: string)
    ensures var r := SplitHostname(name);
      SplitHostname(r.hostname + "/" + r.remoteName) == r
  {
    var r := SplitHostname(name);
    if r.hostname == DefaultRegistryHostname {
      ExplicitDefaultHost(DefaultRegistryHostname, r.remoteName);
    } else {
      var i := IndexRune(name, '/');
      var host := name[..i];
      assert r == HostPath(host, name[i + 1..]);
      var joined := host + "/" + r.remoteName;
      assert joined[..|host|] == host;
      assert joined[|host| + 1..] == r.remoteName;
      SplitExplicitHost(joined, |host|);
    }
  }

  /** A name without `/` is an official image on the default registry. */
  lemma SplitWithoutSlash(name: string)
    requires '/' !in name
    ensures SplitHostname(name) == HostPath(DefaultRegistryHostname, DefaultRepoPrefix + name)
  {
  }

  /** A host-like first segment is the host (the alias being rewritten), and the rest of the
      name is the path; for any other host, host and path put back together give the name. */
  lemma SplitExplicitHost(name: string, i: nat)
    requires i < |name| && name[i] == '/' && '/' !in name[..i]
    requires LooksLikeHost(name[..i])
    ensures SplitHostname(name).hostname ==
      (if name[..i] == WrongRegistryHostname then DefaultRegistryHostname else name[..i])
    ensures name[..i] != WrongRegistryHostname && name[..i] != DefaultRegistryHostname ==>
      && SplitHostname(name) == HostPath(name[..i], name[i + 1..])
      && SplitHostname(name).hostname + "/" + SplitHostname(name).remoteName == name
  {
    IndexRuneIsFirst(name, '/', i);
    assert name == name[..i] + "/" + name[i + 1..];
  }

  /** A first segment that does not look like a host belongs to the path on the default registry. */
  lemma SplitImplicitHost(name: string, i: nat)
    requires i < |name| && name[i] == '/' && '/' !in name[..i]
    requires !LooksLikeHost(name[..i])
    ensures SplitHostname(name) == HostPath(DefaultRegistryHostname, name)
  {
    IndexRuneIsFirst(name, '/', i);
  }

  /** normalize: refuses a path with an upper-case letter; on the default registry it keeps
      the path without one leading `library/`, on any other host the name as given. */
  function Normalize(name: string): (r: Result<string, ErrorKind>)
    ensures r.Failure? <==> !IsLowercase(SplitHostname(name).remoteName)
    ensures r.Failure? ==> r.error == NotLowercase
    ensures r.Success? && SplitHostname(name).hostname == DefaultRegistryHostname ==>
      var path := SplitHostname(name).remoteName;
      path == r.value || path == DefaultRepoPrefix + r.value
    ensures (r.Success? && SplitHostname(name).hostname == DefaultRegistryHostname &&
             HasPrefix(SplitHostname(name).remoteName, DefaultRepoPrefix)) ==>
      SplitHostname(name).remoteName == DefaultRepoPrefix + r.value
    ensures r.Success? && SplitHostname(name).hostname != DefaultRegistryHostname ==> r.value == name
  {
    var split := SplitHostname(name);
    ToLowerFixpoint(split.remoteName);
    if ToLower(split.remoteName) != split.remoteName then Failure(NotLowercase)
    else if split.hostname == DefaultRegistryHostname then
      Success(TrimPrefix(split.remoteName, DefaultRepoPrefix))
    else Success(name)
  }

  /** On the default registry a lower-case path is kept without one leading `library/`. */
  lemma NormalizeOnDefaultHost(name: string, path: string)
    requires SplitHostname(name) == HostPath(DefaultRegistryHostname, path) && IsLowercase(path)
    ensures Normalize(name) == Success(TrimPrefix(path, DefaultRepoPrefix))
  {
  }

  /** Under an explicit host other than the default registry and its alias, a name with a
      lower-case path is kept as written, whatever the case of the host. */
  lemma NormalizeExplicitHost(host: string, path: string)
    requires LooksLikeHost(host) && '/' !in host
    requires host != WrongRegistryHostname && host != DefaultRegistryHostname
    requires IsLowercase(path)
    ensures Normalize(host + "/" + path) == Success(host + "/" + path)
  {
    var name := host + "/" + path;
    assert name[..|host|] == host;
    SplitExplicitHost(name, |host|);
    assert name[|host| + 1..] == path;
  }

  lemma LowercaseNamespaced(path: string)
    requires IsLowercase(path)
    ensures IsLowercase(DefaultRepoPrefix + path)
  {
    LowercaseConcat(DefaultRepoPrefix, path);
  }

  lemma TrimNamespace(path: string)
    ensures TrimPrefix(DefaultRepoPrefix + path, DefaultRepoPrefix) == path
  {
    var p := DefaultRepoPrefix + path;
    assert p[..|DefaultRepoPrefix|] == DefaultRepoPrefix;
    assert p[|DefaultRepoPrefix|..] == path;
  }

  /** A path that starts with `library/` has its first `/` right after `library`. */
  lemma NamespaceIndex(p: string)
    ensures HasPrefix(p, DefaultRepoPrefix) ==> IndexRune(p, '/') == 7 && p[..7] == "library"
  {
    if HasPrefix(p, DefaultRepoPrefix) {
      assert p[..8][7] == '/';
      assert p[..7] == p[..8][..7];
      IndexRuneIsFirst(p, '/', 7);
    }
  }

  lemma LibraryIsNotHost()
    ensures !LooksLikeHost("library")
  {
  }

  /** The `library/` namespace is a path segment, not a host. */
  lemma SplitNamespaced(x: string)
    ensures SplitHostname(DefaultRepoPrefix + x) == HostPath(DefaultRegistryHostname, DefaultRepoPrefix + x)
  {
    var p := DefaultRepoPrefix + x;
    NamespaceIndex(p);
    LibraryIsNotHost();
    SplitImplicitHost(p, 7);
  }

  /** The alias host and the default host, spelt out, both mean the default registry. */
  lemma ExplicitDefaultHost(host: string, path: string)
    requires host == WrongRegistryHostname || host == DefaultRegistryHostname
    ensures SplitHostname(host + "/" + path) ==
      HostPath(DefaultRegistryHostname, if '/' in path then path else DefaultRepoPrefix + path)
  {
    var name := host + "/" + path;
    assert name[..|host|] == host;
    assert name[|host| + 1..] == path;
    HostAt(name[..|host|], |host| - 3);
    SplitExplicitHost(name, |host|);
  }

  lemma NormalizeBare(x: string)
    requires '/' !in x && IsLowercase(x)
    ensures Normalize(x) == Success(x)
  {
    SplitWithoutSlash(x);
    LowercaseNamespaced(x);
    TrimNamespace(x);
    NormalizeOnDefaultHost(x, DefaultRepoPrefix + x);
  }

  lemma NormalizeNamespaced(x: string)
    requires IsLowercase(x)
    ensures Normalize(DefaultRepoPrefix + x) == Success(x)
  {
    SplitNamespaced(x);
    LowercaseNamespaced(x);
    TrimNamespace(x);
    NormalizeOnDefaultHost(DefaultRepoPrefix + x, DefaultRepoPrefix + x);
  }

  lemma NormalizeDefaultHostBare(host: string, x: string)
    requires host == WrongRegistryHostname || host == DefaultRegistryHostname
    requires '/' !in x && IsLowercase(x)
    ensures Normalize(host + "/" + x) == Success(x)
  {
    ExplicitDefaultHost(host, x);
    LowercaseNamespaced(x);
    TrimNamespace(x);
    NormalizeOnDefaultHost(host + "/" + x, DefaultRepoPrefix + x);
  }

  /** `library/` directly after the default host (or its alias) is stripped once. */
  lemma NormalizeStripsNamespace(host: string, rest: string)
    requires host == WrongRegistryHostname || host == DefaultRegistryHostname
    requires IsLowercase(rest)
    ensures Normalize(host + "/" + (DefaultRepoPrefix + rest)) == Success(rest)
  {
    var path := DefaultRepoPrefix + rest;
    assert '/' in path by { assert path[7] == '/'; }
    ExplicitDefaultHost(host, path);
    LowercaseNamespaced(rest);
    TrimNamespace(rest);
    NormalizeOnDefaultHost(host + "/" + path, path);
  }

  /** A lower-case official-image name normalises to itself, and so do the qualified forms
      that spell out the alias host, the default host or the `library/` namespace. */
  lemma NormalizeOfficialForms(x: string)
    requires '/' !in x && IsLowercase(x)
    ensures Normalize(x) == Success(x)
    ensures Normalize(DefaultRepoPrefix + x) == Success(x)
    ensures Normalize(WrongRegistryHostname + "/" + x) == Success(x)
    ensures Normalize(WrongRegistryHostname + "/" + (DefaultRepoPrefix + x)) == Success(x)
    ensures Normalize(DefaultRegistryHostname + "/" + x) == Success(x)
    ensures Normalize(DefaultRegistryHostname + "/" + (DefaultRepoPrefix + x)) == Success(x)
  {
    NormalizeBare(x);
    NormalizeNamespaced(x);
    NormalizeDefaultHostBare(WrongRegistryHostname, x);
    NormalizeDefaultHostBare(DefaultRegistryHostname, x);
    NormalizeStripsNamespace(WrongRegistryHostname, x);
    NormalizeStripsNamespace(DefaultRegistryHostname, x);
  }

  /** The alias host and the default host are interchangeable in front of any path. */
  lemma NormalizeAliasHost(path: string)
    ensures Normalize(WrongRegistryHostname + "/" + path) == Normalize(DefaultRegistryHostname + "/" + path)
  {
    ExplicitDefaultHost(WrongRegistryHostname, path);
    ExplicitDefaultHost(DefaultRegistryHostname, path);
  }

  /** normalize is not idempotent: a doubled namespace loses one `library/` per application,
      so index.docker.io/library/library/foo gives library/foo, which gives foo. */
  lemma NormalizeNotIdempotent(x: string)
    requires '/' !in x && IsLowercase(x)
    ensures Normalize(DefaultRegistryHostname + "/" + (DefaultRepoPrefix + (DefaultRepoPrefix + x))) ==
      Success(DefaultRepoPrefix + x)
    ensures Normalize(DefaultRepoPrefix + x) == Success(x)
  {
    LowercaseNamespaced(x);
    NormalizeStripsNamespace(DefaultRegistryHostname, DefaultRepoPrefix + x);
    NormalizeNamespaced(x);
  }

  /** Whatever normalize keeps has a lower-case path again, so normalising it once more succeeds. */
  lemma NormalizedPathIsLowercase(name: string, n: string)
    requires Normalize(name) == Success(n)
    ensures IsLowercase(SplitHostname(n).remoteName)
    ensures Normalize(n).Success?
  {
    var split := SplitHostname(name);
    if split.hostname == DefaultRegistryHostname {
      if HasPrefix(split.remoteName, DefaultRepoPrefix) {
        LowercaseConcat(DefaultRepoPrefix, n);
      }
      SplitOfLowercase(n);
    }
  }

  /** Splitting a lower-case name gives a lower-case path. */
  lemma SplitOfLowercase(m: string)
    requires IsLowercase(m)
    ensures IsLowercase(SplitHostname(m).remoteName)
  {
    var i := IndexRune(m, '/');
    var rest := if i == -1 || !LooksLikeHost(m[..i]) then m else m[i + 1..];
    if rest != m {
      LowercaseSuffix(m, i + 1);
    }
    LowercaseNamespaced(rest);
  }

  /** A Docker Hub path of the form `namespace/repository`, whose namespace does not look like a host. */
  predicate IsTwoLevelPath(path: string) {
    var i := IndexRune(path, '/');
    0 <= i && '/' !in path[i + 1..] && !LooksLikeHost(path[..i])
  }

  /** A two-level path on the default registry, once its `library/` namespace is trimmed,
      splits back into the default registry and the same path. */
  lemma TwoLevelPathKeepsCoordinates(p: string)
    requires IsTwoLevelPath(p)
    ensures SplitHostname(TrimPrefix(p, DefaultRepoPrefix)) == HostPath(DefaultRegistryHostname, p)
  {
    var i := IndexRune(p, '/');
    NamespaceIndex(p);
    if p[..i] == "library" {
      assert p[..8] == p[..7] + [p[7]];
      assert p == DefaultRepoPrefix + p[8..];
      TrimNamespace(p[8..]);
      SplitWithoutSlash(p[8..]);
    } else {
      SplitImplicitHost(p, i);
    }
  }

  /** The stored name re-splits into the host and path the input named, on any explicit
      non-default host and for two-level paths on the default registry. */
  lemma NormalizeKeepsCoordinates(name: string, n: string)
    requires Normalize(name) == Success(n)
    requires SplitHostname(name).hostname == DefaultRegistryHostname ==>
      IsTwoLevelPath(SplitHostname(name).remoteName)
    ensures SplitHostname(n) == SplitHostname(name)
  {
    var split := SplitHostname(name);
    if split.hostname == DefaultRegistryHostname {
      NormalizeOnDefaultHost(name, split.remoteName);
      TwoLevelPathKeepsCoordinates(split.remoteName);
    }
  }

  /** Without the two-level condition the coordinates can move: a three-level path
      `library/<host>/<repo>` on the default registry is stored as `<host>/<repo>`, which
      names another registry. */
  lemma NormalizeCanMoveHost(host: string, repo: string)
    requires LooksLikeHost(host) && '/' !in host && IsLowercase(host) && IsLowercase(repo)
    requires host != WrongRegistryHostname && host != DefaultRegistryHostname
    ensures SplitHostname(DefaultRepoPrefix + (host + "/" + repo)).hostname == DefaultRegistryHostname
    ensures Normalize(DefaultRepoPrefix + (host + "/" + repo)) == Success(host + "/" + repo)
    ensures SplitHostname(host + "/" + repo).hostname == host
  {
    var stored := host + "/" + repo;
    SplitNamespaced(stored);
    assert IsLowercase(stored) by {
      LowercaseConcat(host, "/");
      LowercaseConcat(host + "/", repo);
    }
    NormalizeNamespaced(stored);
    assert SplitHostname(stored).hostname == host by {
      assert stored[..|host|] == host;
      SplitExplicitHost(stored, |host|);
    }
  }

  predicate IsHexDigit(c: char) {
    '0' <= c <= '9' || 'a' <= c <= 'f'
  }

  /** An image ID: 64 lower-case hexadecimal digits. */
  predicate IsImageId(s: string): (b: bool)
    ensures b ==> IsLowercase(s) && '/' !in s
  {
    |s| == 64 && forall k :: 0 <= k < |s| ==> IsHexDigit(s[k])
  }

  /** validateName: names that are image IDs are refused. */
  function ValidateName(name: string): (r: Option<ErrorKind>)
    ensures r.Some? <==> IsImageId(name)
    ensures r.Some? ==> r.value == HexadecimalName
  {
    if IsImageId(name) then Some(HexadecimalName) else None
  }

  /** WithName: normalise, refuse image IDs, let the library validate, and wrap as a plain name. */
  function WithName(g: Grammar, name: string): (r: Result<Named, ErrorKind>)
    ensures r.Success? ==> r.value.Plain? && Normalize(name) == Success(r.value.name)
    ensures r.Success? ==> !IsImageId(r.value.name) && g.nameValid(r.value.name)
    ensures r.Failure? && Normalize(name).Success? && !IsImageId(Normalize(name).value) ==>
      !g.nameValid(Normalize(name).value) && r.error == GrammarRejected
    ensures Normalize(name).Failure? ==> r == Failure(NotLowercase)
    ensures Normalize(name).Success? && IsImageId(Normalize(name).value) ==> r == Failure(HexadecimalName)
  {
    match Normalize(name)
    case Failure(e) => Failure(e)
    case Success(n) =>
      match ValidateName(n)
      case Some(e) => Failure(e)
      case None => if g.nameValid(n) then Success(Plain(n)) else Failure(GrammarRejected)
  }

  /** WithTag: the name with the given tag, and nothing else (a digest it had is not kept). */
  function WithTag(g: Grammar, n: Named, tag: string): (r: Result<Named, ErrorKind>)
    ensures r.Success? <==> g.tagValid(tag)
    ensures r.Success? ==> r.value.Tagged? && r.value.name == n.name && r.value.tag == tag
    ensures r.Failure? ==> r.error == GrammarRejected
  {
    if g.tagValid(tag) then Success(Tagged(n.name, tag)) else Failure(GrammarRejected)
  }

  /** WithDigest: the name with the given digest, and nothing else (a tag it had is not kept). */
  function WithDigest(g: Grammar, n: Named, digest: string): (r: Result<Named, ErrorKind>)
    ensures r.Success? <==> g.digestValid(digest)
    ensures r.Success? ==> r.value.Canonical? && r.value.name == n.name && r.value.digest == digest
    ensures r.Failure? ==> r.error == GrammarRejected
  {
    if g.digestValid(digest) then Success(Canonical(n.name, digest)) else Failure(GrammarRejected)
  }

  /** The variant the wrapper exposes carries only the last tag or digest attached; the copy the
      library keeps inside its own value is left out. */
  lemma LastAttachmentWins(g: Grammar, name: string, tag: string, digest: string)
    ensures WithTag(g, Canonical(name, digest), tag) == WithTag(g, Plain(name), tag)
    ensures WithDigest(g, Tagged(name, tag), digest) == WithDigest(g, Plain(name), digest)
  {
  }

  /** IsNameOnly: neither a tag nor a digest. */
  predicate IsNameOnly(n: Named): (b: bool)
    ensures b <==> n.Plain?
  {
    !n.Tagged? && !n.Canonical?
  }

  /** WithDefaultTag: a name-only reference gets the tag "latest"; any other is returned as is. */
  function WithDefaultTag(g: Grammar, n: Named): (r: Named)
    ensures IsNameOnly(n) ==> r == Tagged(n.name, DefaultTag)
    ensures !IsNameOnly(n) ==> r == n
    ensures !IsNameOnly(r) && r.name == n.name
  {
    if IsNameOnly(n) then WithTag(g, n, DefaultTag).value else n
  }

  lemma WithDefaultTagIdempotent(g: Grammar, n: Named)
    ensures WithDefaultTag(g, WithDefaultTag(g, n)) == WithDefaultTag(g, n)
  {
  }

  /** ParseNamed: parse with the grammar, re-derive the name, then attach the digest if there is
      one (dropping any tag), else the tag if there is one. */
  function ParseNamed(g: Grammar, s: string): (r: Result<Named, ErrorKind>)
    ensures r == Failure(InvalidReference) <==> g.parseNormalizedNamed(s).None?
    ensures g.parseNormalizedNamed(s).Some? && WithName(g, g.parseNormalizedNamed(s).value.name).Failure? ==>
      r == Failure(WithName(g, g.parseNormalizedNamed(s).value.name).error)
    ensures r.Failure? && g.parseNormalizedNamed(s).Some? &&
            WithName(g, g.parseNormalizedNamed(s).value.name).Success? ==>
      r.error == GrammarRejected
    ensures r.Success? ==>
      var p := g.parseNormalizedNamed(s).value;
      && g.parseNormalizedNamed(s).Some?
      && WithName(g, p.name) == Success(Plain(r.value.name))
      && (p.digest.Some? ==> r.value == Canonical(r.value.name, p.digest.value))
      && (p.digest.None? && p.tag.Some? ==> r.value == Tagged(r.value.name, p.tag.value))
      && (p.digest.None? && p.tag.None? ==> r.value.Plain?)
  {
    match g.parseNormalizedNamed(s)
    case None => Failure(InvalidReference)
    case Some(p) =>
      match WithName(g, p.name)
      case Failure(e) => Failure(e)
      case Success(n) =>
        if p.digest.Some? then WithDigest(g, n, p.digest.value)
        else if p.tag.Some? then WithTag(g, n, p.tag.value)
        else Success(n)
  }

  /** ParseNamed succeeds exactly when the grammar parses the string, WithName accepts its name,
      and the library accepts the digest (or, with no digest, the tag) it will attach. */
  lemma ParseNamedSucceeds(g: Grammar, s: string)
    ensures ParseNamed(g, s).Success? <==>
      && g.parseNormalizedNamed(s).Some?
      && var p := g.parseNormalizedNamed(s).value;
      && WithName(g, p.name).Success?
      && (p.digest.Some? ==> g.digestValid(p.digest.value))
      && (p.digest.None? && p.tag.Some? ==> g.tagValid(p.tag.value))
  {
  }
}
