/** The facade over a parsed image reference (image/parse.go): scheme removal, the Reference
    value with the strings derived from it, and the flat Repository record. */
module ImageParse {
  import opened Wrappers
  import opened GoStrings
  import opened ImageReference

  /** A parsed reference: the name and its suffix, which is ":" + tag, "@" + digest or "". */
  datatype Reference = Reference(named: Named, suffix: string)
  {
    /** The path and the suffix: "library/debian:8.2". */
    function Name(): (s: string)
      ensures s == ShortName() + suffix
      ensures Registry() == DefaultRegistryHostname ==> '/' in s
    {
      named.RemoteName() + suffix
    }

    /** The path without host or suffix: "library/debian"; it is the path the repository
        string splits into. */
    function ShortName(): (p: string)
      ensures p == SplitHostname(named.FullName()).remoteName
      ensures SplitHostname(named.name).hostname == DefaultRegistryHostname ==> '/' in p
    {
      named.RemoteName()
    }

    /** The suffix without its separator: the tag, or the digest. */
    function Tag(): (t: string)
      ensures |suffix| > 1 ==> suffix == suffix[..1] + t
      ensures |suffix| <= 1 ==> t == ""
    {
      if |suffix| > 1 then suffix[1..] else ""
    }

    /** The registry host: "index.docker.io"; it is the host the repository string splits into. */
    function Registry(): (h: string)
      ensures h == SplitHostname(named.FullName()).hostname
      ensures h != WrongRegistryHostname
    {
      named.Hostname()
    }

    /** Host and path: "index.docker.io/library/debian". */
    function Repository(): (s: string)
      ensures s == Registry() + "/" + ShortName()
      ensures SplitHostname(s) == HostPath(Registry(), ShortName())
    {
      named.FullName()
    }

    /** Host, path and suffix: "index.docker.io/library/debian:8.2". */
    function Remote(): (s: string)
      ensures s == Repository() + suffix
      ensures s == Registry() + "/" + Name()
    {
      named.FullName() + suffix
    }
  }

  const HttpScheme := "http://"
  const HttpsScheme := "https://"

  /** clean: one leading "http://" or "https://" is removed (strings.Replace with a count of 1
      removes the first occurrence, which HasPrefix has placed at the start). */
  function Clean(url: string): (s: string)
    ensures HasPrefix(url, HttpScheme) ==> HttpScheme + s == url
    ensures HasPrefix(url, HttpsScheme) ==> HttpsScheme + s == url
    ensures !HasPrefix(url, HttpScheme) && !HasPrefix(url, HttpsScheme) ==> s == url
  {
    SchemesDiffer(url);
    if HasPrefix(url, HttpScheme) then url[|HttpScheme|..]
    else if HasPrefix(url, HttpsScheme) then url[|HttpsScheme|..]
    else url
  }

  lemma SchemesDiffer(url: string)
    ensures HasPrefix(url, HttpScheme) ==> !HasPrefix(url, HttpsScheme)
  {
    if HasPrefix(url, HttpScheme) {
      assert url[4] == ':';
    }
  }

  /** Clean undoes exactly one scheme: what follows the scheme comes back, even when it
      starts with a scheme itself. */
  lemma CleanRemovesOneScheme(s: string)
    ensures Clean(HttpScheme + s) == s
    ensures Clean(HttpsScheme + s) == s
  {
    var http := HttpScheme + s;
    assert http[..|HttpScheme|] == HttpScheme;
    var https := HttpsScheme + s;
    assert https[..|HttpsScheme|] == HttpsScheme;
    assert https[4] == 's';
  }

  /** The suffix that Parse and ParseRepo compute for a reference: "@" + digest for the
      Canonical form, ":" + tag for the Tagged form, nothing otherwise. */
  function Suffix(n: Named): (t: string)
    ensures IsNameOnly(n) <==> t == ""
    ensures n.Tagged? ==> t[0] == ':' && t[1..] == n.tag
    ensures n.Canonical? ==> t[0] == '@' && t[1..] == n.digest
  {
    match n
    case Canonical(_, digest) => "@" + digest
    case Tagged(_, tag) => ":" + tag
    case Plain(_) => ""
  }

  /** Tag() gives back what the suffix was made of: the tag, or for a digest reference the
      digest itself ("sha256:..."); even an empty tag or digest comes back as written. */
  lemma TagOfSuffix(n: Named)
    ensures Reference(n, Suffix(n)).Tag() ==
      match n
      case Plain(_) => ""
      case Tagged(_, tag) => tag
      case Canonical(_, digest) => digest
  {
  }

  /** How the derived strings fit together, for every reference. */
  lemma AccessorsCompose(ref: Reference)
    ensures ref.Repository() == ref.Registry() + "/" + ref.ShortName()
    ensures ref.Remote() == ref.Repository() + ref.suffix
    ensures ref.Name() == ref.ShortName() + ref.suffix
    ensures ref.Registry() != WrongRegistryHostname
    ensures ref.Registry() == DefaultRegistryHostname ==> '/' in ref.ShortName()
  {
  }

  /** Parse: clean the scheme, parse the name, give it the default tag if it has neither tag
      nor digest, and record its suffix. */
  function Parse(g: Grammar, remote: string): (r: Result<Reference, ErrorKind>)
    ensures r.Failure? <==> ParseNamed(g, Clean(remote)).Failure?
    ensures r.Failure? ==> r.error == ParseNamed(g, Clean(remote)).error
    ensures r.Success? ==> !IsNameOnly(r.value.named) && r.value.suffix == Suffix(r.value.named)
    ensures r.Success? ==> r.value.named.name == ParseNamed(g, Clean(remote)).value.name
  {
    match ParseNamed(g, Clean(remote))
    case Failure(e) => Failure(e)
    case Success(parsed) =>
      var n := WithDefaultTag(g, parsed);
      Success(Reference(n, Suffix(n)))
  }

  /** The label a parsed reference reports: the digest when one was written (a tag beside it
      is dropped), else the tag, else "latest". */
  lemma ParseReportsLabel(g: Grammar, remote: string, p: ParsedName)
    requires g.parseNormalizedNamed(Clean(remote)) == Some(p)
    requires Parse(g, remote).Success?
    ensures var ref := Parse(g, remote).value;
      if p.digest.Some? then
        ref.named.Canonical? && ref.suffix == "@" + p.digest.value && ref.Tag() == p.digest.value
      else if p.tag.Some? then
        ref.named.Tagged? && ref.suffix == ":" + p.tag.value && ref.Tag() == p.tag.value
      else
        ref.named.Tagged? && ref.suffix == ":" + DefaultTag && ref.Tag() == DefaultTag
  {
    var ref := Parse(g, remote).value;
    TagOfSuffix(ref.named);
  }

  /** The repository path of a parsed reference is lower-case and never under the alias host. */
  lemma ParseNameIsNormal(g: Grammar, remote: string)
    requires Parse(g, remote).Success?
    ensures IsLowercase(Parse(g, remote).value.ShortName())
    ensures Parse(g, remote).value.Registry() != WrongRegistryHostname
  {
    var p := g.parseNormalizedNamed(Clean(remote)).value;
    NormalizedPathIsLowercase(p.name, Parse(g, remote).value.named.name);
  }

  /** Registry and short name are those the grammar's name spells, whenever normalisation
      keeps its coordinates (any explicit host; two-level paths on the default registry). */
  lemma ParseKeepsCoordinates(g: Grammar, remote: string, p: ParsedName)
    requires g.parseNormalizedNamed(Clean(remote)) == Some(p)
    requires Parse(g, remote).Success?
    requires SplitHostname(p.name).hostname == DefaultRegistryHostname ==>
      IsTwoLevelPath(SplitHostname(p.name).remoteName)
    ensures Parse(g, remote).value.Registry() == SplitHostname(p.name).hostname
    ensures Parse(g, remote).value.ShortName() == SplitHostname(p.name).remoteName
  {
    NormalizeKeepsCoordinates(p.name, Parse(g, remote).value.named.name);
  }

  /** An official image, however it is spelt, lands on the default registry under `library/`
      with the tag "latest": "ubuntu" gives "index.docker.io/library/ubuntu:latest". */
  lemma ParseOfficialImage(g: Grammar, remote: string, x: string)
    requires '/' !in x && IsLowercase(x) && !IsImageId(x) && g.nameValid(x)
    requires g.parseNormalizedNamed(Clean(remote)).Some?
    requires var p := g.parseNormalizedNamed(Clean(remote)).value;
      p.tag.None? && p.digest.None? && Normalize(p.name) == Success(x)
    ensures Parse(g, remote).Success?
    ensures var ref := Parse(g, remote).value;
      && ref.Registry() == DefaultRegistryHostname
      && ref.ShortName() == DefaultRepoPrefix + x
      && ref.Repository() == DefaultRegistryHostname + "/" + DefaultRepoPrefix + x
      && ref.Tag() == DefaultTag
      && ref.Remote() == DefaultRegistryHostname + "/" + DefaultRepoPrefix + x + ":" + DefaultTag
  {
    assert ParseNamed(g, Clean(remote)) == Success(Plain(x));
    assert Parse(g, remote) == Success(Reference(Tagged(x, DefaultTag), ":" + DefaultTag));
    OfficialImageAccessors(x);
  }

  lemma OfficialImageAccessors(x: string)
    requires '/' !in x
    ensures var ref := Reference(Tagged(x, DefaultTag), ":" + DefaultTag);
      && ref.Registry() == DefaultRegistryHostname
      && ref.ShortName() == DefaultRepoPrefix + x
      && ref.Repository() == DefaultRegistryHostname + "/" + DefaultRepoPrefix + x
      && ref.Tag() == DefaultTag
      && ref.Remote() == DefaultRegistryHostname + "/" + DefaultRepoPrefix + x + ":" + DefaultTag
  {
    SplitWithoutSlash(x);
    TagOfSuffix(Tagged(x, DefaultTag));
  }

  /** A name under an explicit registry keeps that registry and its path. */
  lemma ParseExplicitRegistry(g: Grammar, remote: string, host: string, path: string, tag: string)
    requires LooksLikeHost(host) && '/' !in host
    requires host != WrongRegistryHostname && host != DefaultRegistryHostname
    requires IsLowercase(path) && g.nameValid(host + "/" + path) && g.tagValid(tag)
    requires g.parseNormalizedNamed(Clean(remote)) == Some(ParsedName(host + "/" + path, Some(tag), None))
    ensures Parse(g, remote).Success?
    ensures var ref := Parse(g, remote).value;
      && ref.Registry() == host
      && ref.ShortName() == path
      && ref.Tag() == tag
      && ref.Remote() == host + "/" + path + ":" + tag
  {
    var name := host + "/" + path;
    ExplicitRegistryName(g, Clean(remote), host, path, tag);
    assert Parse(g, remote) == Success(Reference(Tagged(name, tag), ":" + tag));
    ExplicitRegistryAccessors(host, path, tag);
  }

  lemma ExplicitRegistryAccessors(host: string, path: string, tag: string)
    requires LooksLikeHost(host) && '/' !in host
    requires host != WrongRegistryHostname && host != DefaultRegistryHostname
    ensures var ref := Reference(Tagged(host + "/" + path, tag), ":" + tag);
      && ref.Registry() == host
      && ref.ShortName() == path
      && ref.Tag() == tag
      && ref.Remote() == host + "/" + path + ":" + tag
  {
    var name := host + "/" + path;
    assert name[..|host|] == host;
    SplitExplicitHost(name, |host|);
    TagOfSuffix(Tagged(name, tag));
  }

  lemma ExplicitRegistryName(g: Grammar, s: string, host: string, path: string, tag: string)
    requires LooksLikeHost(host) && '/' !in host
    requires host != WrongRegistryHostname && host != DefaultRegistryHostname
    requires IsLowercase(path) && g.nameValid(host + "/" + path) && g.tagValid(tag)
    requires g.parseNormalizedNamed(s) == Some(ParsedName(host + "/" + path, Some(tag), None))
    ensures ParseNamed(g, s) == Success(Tagged(host + "/" + path, tag))
  {
    var name := host + "/" + path;
    NormalizeExplicitHost(host, path);
    assert !IsImageId(name) by { assert name[|host|] == '/'; }
  }

  /** An upper-case letter in the repository path is refused. */
  lemma ParseRejectsUppercase(g: Grammar, remote: string, p: ParsedName)
    requires g.parseNormalizedNamed(Clean(remote)) == Some(p)
    requires !IsLowercase(SplitHostname(p.name).remoteName)
    ensures Parse(g, remote) == Failure(NotLowercase)
  {
  }

  /** A name whose normalised form is a 64-digit hexadecimal image ID is refused. */
  lemma ParseRejectsImageId(g: Grammar, remote: string, p: ParsedName, h: string)
    requires g.parseNormalizedNamed(Clean(remote)) == Some(p)
    requires Normalize(p.name) == Success(h) && IsImageId(h)
    ensures Parse(g, remote) == Failure(HexadecimalName)
  {
  }

  /** An image ID written as an official image, as the distribution library spells names
      ("docker.io/library/<id>") or in any of the other spellings, is refused. */
  lemma ParseRejectsOfficialImageId(g: Grammar, remote: string, p: ParsedName, h: string)
    requires g.parseNormalizedNamed(Clean(remote)) == Some(p)
    requires IsImageId(h)
    requires || p.name == h
             || p.name == DefaultRepoPrefix + h
             || p.name == WrongRegistryHostname + "/" + h
             || p.name == WrongRegistryHostname + "/" + (DefaultRepoPrefix + h)
             || p.name == DefaultRegistryHostname + "/" + h
             || p.name == DefaultRegistryHostname + "/" + (DefaultRepoPrefix + h)
    ensures Parse(g, remote) == Failure(HexadecimalName)
  {
    NormalizeOfficialForms(h);
    ParseRejectsImageId(g, remote, p, h);
  }

  /** The record ParseRepo fills in. */
  datatype Repository = Repository(
    name: string,
    repository: string,
    registry: string,
    scheme: string,
    shortName: string,
    remote: string,
    tag: string)

  /** ParseRepo: the steps of Parse, then each accessor copied into the record. The scheme is
      never filled in. */
  function ParseRepo(g: Grammar, remote: string): (r: Result<Repository, ErrorKind>)
    ensures r.Failure? <==> ParseNamed(g, Clean(remote)).Failure?
    ensures r.Success? ==> r.value.scheme == ""
  {
    match ParseNamed(g, Clean(remote))
    case Failure(e) => Failure(e)
    case Success(parsed) =>
      var n := WithDefaultTag(g, parsed);
      var ref := Reference(n, Suffix(n));
      Success(Repository(
        name := ref.Name(),
        repository := ref.Repository(),
        registry := ref.Registry(),
        scheme := "",
        shortName := ref.ShortName(),
        remote := ref.Remote(),
        tag := ref.Tag()))
  }

  /** ParseRepo fails when Parse does, with the same error, and otherwise records exactly
      what the Reference from Parse reports. */
  lemma ParseRepoMatchesParse(g: Grammar, remote: string)
    ensures ParseRepo(g, remote).Success? <==> Parse(g, remote).Success?
    ensures ParseRepo(g, remote).Failure? ==> ParseRepo(g, remote).error == Parse(g, remote).error
    ensures ParseRepo(g, remote).Success? ==>
      var rec, ref := ParseRepo(g, remote).value, Parse(g, remote).value;
      && rec.name == ref.Name()
      && rec.repository == ref.Repository()
      && rec.registry == ref.Registry()
      && rec.shortName == ref.ShortName()
      && rec.remote == ref.Remote()
      && rec.tag == ref.Tag()
      && rec.scheme == ""
  {
  }
}
