# Container-image reference normalisation, modelled in Dafny

This project models how the keel image package turns an image string such as `ubuntu`,
`docker.io/library/debian:8.2` or `registry.example.com:5000/team/app@sha256:…` into a
registry host, a repository path and a tag or digest. It then proves what that code promises.

The model is pure: datatypes, functions and lemmas. Both source files only slice strings,
concatenate them and analyse cases. They have no loops, no mutation and no I/O.

- `wrappers.dfy` (module `Wrappers`): `Option` and `Result`. Go's `(value, error)` pairs become `Result`.
- `strings.dfy` (module `GoStrings`): the Go `strings` operations the code uses. These are
  `IndexRune`, `ContainsAny`, `HasPrefix`, `TrimPrefix` and an ASCII `ToLower`.
- `reference.dfy` (module `ImageReference`, from `util/image/reference.go`):
  - the constants;
  - `SplitHostname` and `Normalize`;
  - `ValidateName`;
  - the reference variants `Named = Plain | Tagged | Canonical`;
  - `WithName`, `WithTag`, `WithDigest`, `WithDefaultTag` and `ParseNamed`.
- `parse.dfy` (module `ImageParse`, from `image/parse.go`):
  - `Clean`;
  - the `Reference` value and its accessors;
  - the suffix computation shared by `Parse` and `ParseRepo`;
  - the `Repository` record.

The distribution library (`github.com/distribution/distribution/v3/reference`) does the parsing
underneath. It enters the model as a value `g: Grammar` that holds four operations:

- `parseNormalizedNamed`: the string's name, with an optional tag and an optional digest, or no result;
- `nameValid`, `tagValid`, `digestValid`: whether `reference.WithName`, `WithTag` and `WithDigest` accept their argument.

Every theorem holds for every such grammar. The type `Grammar` has one constraint: the library
accepts the tag `latest`. `WithDefaultTag` throws away the error from attaching that tag, so the
source relies on this.

## Model

| member | source | states |
|---|---|---|
| `ImageReference.SplitHostname` | util/image/reference.go:179-194 | the host is never the alias `docker.io`; when the host is `index.docker.io` the path contains a `/` |
| `ImageReference.SplitWithoutSlash` | util/image/reference.go:180-191 | a name without `/` gives host `index.docker.io` and path `library/` + name |
| `ImageReference.SplitExplicitHost` | util/image/reference.go:180-188 | a first segment with `.` or `:`, or equal to `localhost`, is the host, and `docker.io` becomes `index.docker.io`; for any other host the path is the rest of the name, and host + `/` + path gives back the name |
| `ImageReference.SplitImplicitHost` | util/image/reference.go:180-182 | a first segment that does not look like a host leaves the whole name as the path on `index.docker.io` |
| `ImageReference.ExplicitDefaultHost` | util/image/reference.go:184-191 | `docker.io/p` and `index.docker.io/p` both split into the default host and `p`, with `library/` added when `p` has no `/` |
| `ImageReference.Normalize` | util/image/reference.go:198-210 | fails, with the not-lowercase error, exactly when the split path has an upper-case letter; on the default host the result is the path with at most one leading `library/` removed, and exactly one when it has one; on any other host the result is the input unchanged |
| `ImageReference.NormalizeOnDefaultHost` | util/image/reference.go:203-207 | a lower-case path on the default registry is stored without its leading `library/` |
| `ImageReference.NormalizeExplicitHost` | util/image/reference.go:199-209 | under any other explicit host, a lower-case path leaves the name as written, capitals in the host included |
| `ImageReference.NormalizeOfficialForms` | util/image/reference.go:179-210 | for a lower-case single-segment `x`, all six spellings `x`, `library/x`, `docker.io/x`, `docker.io/library/x`, `index.docker.io/x` and `index.docker.io/library/x` normalise to `x` |
| `ImageReference.NormalizeAliasHost` | util/image/reference.go:186-206 | for every path, `docker.io/` + path and `index.docker.io/` + path normalise to the same result |
| `ImageReference.NormalizeNotIdempotent` | util/image/reference.go:203-206 | `index.docker.io/library/library/x` normalises to `library/x`, which normalises to `x` |
| `ImageReference.NormalizedPathIsLowercase` | util/image/reference.go:199-209 | the stored name splits again into a lower-case path, so normalising it a second time succeeds |
| `ImageReference.NormalizeKeepsCoordinates` | util/image/reference.go:179-209 | the stored name splits into the same host and path as the input when the host is explicit and not the default; the same holds on the default registry when the path is `namespace/repository` and the namespace does not look like a host |
| `ImageReference.NormalizeCanMoveHost` | util/image/reference.go:179-209 | without that condition the host can change: `library/h/r` on the default registry is stored as `h/r`, which splits to host `h` |
| `ImageReference.ValidateName` | util/image/reference.go:212-217 | refuses a name exactly when it is 64 lower-case hexadecimal digits |
| `ImageReference.WithName` | util/image/reference.go:93-106 | succeeds only with a plain reference holding the normalised name, which is neither an image ID nor refused by the library; otherwise it returns the error of the first failing step (normalize, the image-ID test, the library) |
| `ImageReference.WithTag` | util/image/reference.go:110-116 | succeeds exactly when the library accepts the tag; the result is Tagged with the same name and that tag |
| `ImageReference.WithDigest` | util/image/reference.go:120-126 | succeeds exactly when the library accepts the digest; the result is Canonical with the same name and that digest |
| `ImageReference.LastAttachmentWins` | util/image/reference.go:108-126 | attaching a tag to a digest reference, or a digest to a tagged one, gives the same result as attaching it to the bare name |
| `ImageReference.WithDefaultTag` | util/image/reference.go:157-174 | a name-only reference becomes Tagged with `latest`; a Tagged or Canonical reference comes back unchanged; the result is never name-only and keeps the name |
| `ImageReference.WithDefaultTagIdempotent` | util/image/reference.go:157-163 | applying the default tag twice gives the same result as applying it once |
| `ImageReference.ParseNamed` | util/image/reference.go:70-89 | the invalid-reference error comes back exactly when the grammar finds no reference; when WithName fails on the parsed name its error comes back unchanged; any other failure is the library refusing the digest or tag; on success the name is the one WithName derives, the result is Canonical when the grammar found a digest (any tag is dropped), else Tagged when it found a tag, else Plain |
| `ImageReference.ParseNamedSucceeds` | util/image/reference.go:70-89 | ParseNamed succeeds exactly when the grammar parses, WithName succeeds, and the library accepts the digest, or the tag when there is no digest |
| `ImageReference.Named.FullName` | util/image/reference.go:138-141 | the joined `host/path` splits back into exactly the host and path of the stored name |
| `ImageReference.IsNameOnly` | util/image/reference.go:165-174 | a reference is name-only exactly when it is the plain form, neither tagged nor with a digest |
| `ImageReference.IsImageId` | util/image/reference.go:212-217 | an image ID has no `/` and no capital, so normalize takes it for an official image name |
| `ImageReference.Named.Hostname` | util/image/reference.go:142-145 | the host of a stored name is never `docker.io` |
| `ImageReference.Named.RemoteName` | util/image/reference.go:146-149 | on the default registry the remote name always has a `/` |
| `GoStrings.ToLowerFixpoint` | util/image/reference.go:200 | the test `ToLower(s) == s` holds exactly when `s` has no ASCII capital |
| `ImageParse.Clean` | image/parse.go:46-57 | a leading `http://` or `https://` is removed, and only once; any other string is returned unchanged |
| `ImageParse.CleanRemovesOneScheme` | image/parse.go:46-57 | for every string s, cleaning `http://` + s or `https://` + s gives back s, even when s itself starts with a scheme |
| `ImageParse.Reference.Name` | image/parse.go:13-16 | the short name followed by the suffix; on the default registry it contains a `/` |
| `ImageParse.Reference.ShortName` | image/parse.go:18-21 | the path that the repository string splits into; on the default registry it contains a `/` |
| `ImageParse.Reference.Tag` | image/parse.go:23-29 | with a suffix longer than one character, the suffix is its separator followed by the result; otherwise the result is `""` |
| `ImageParse.Reference.Registry` | image/parse.go:31-34 | the host that the repository string splits into, never `docker.io` |
| `ImageParse.Reference.Repository` | image/parse.go:36-39 | registry, `/` and short name, and it splits back into exactly that registry and short name |
| `ImageParse.Reference.Remote` | image/parse.go:41-44 | the repository followed by the suffix, which is also registry, `/` and `Name()` |
| `ImageParse.Suffix` | image/parse.go:70-76 | the suffix is empty exactly for a name-only reference; otherwise it is `:` followed by the tag, or `@` followed by the digest |
| `ImageParse.TagOfSuffix` | image/parse.go:24-29 | `Tag()` gives back the tag, or for a digest reference the whole digest (`sha256:…`), and `""` for a name-only reference |
| `ImageParse.AccessorsCompose` | image/parse.go:14-44 | `Repository() == Registry() + "/" + ShortName()`, `Remote() == Repository() + suffix`, `Name() == ShortName() + suffix`, and `Registry()` is never `docker.io` |
| `ImageParse.Parse` | image/parse.go:60-79 | fails exactly when ParseNamed fails on the cleaned string, with the same error; on success the reference is never name-only, its suffix matches its variant, and it keeps the name ParseNamed stored |
| `ImageParse.ParseReportsLabel` | image/parse.go:68-76 | after parsing, the digest wins over a tag and the suffix and `Tag()` are `@`+digest and the digest; with only a tag they are `:`+tag and the tag; with neither they are `:latest` and `latest` |
| `ImageParse.ParseNameIsNormal` | image/parse.go:60-79 | the short name of a parsed reference is lower-case and its registry is never `docker.io` |
| `ImageParse.ParseKeepsCoordinates` | image/parse.go:31-39 | registry and short name are the host and path of the grammar's name whenever normalisation keeps them |
| `ImageParse.ParseOfficialImage` | image/parse.go:31-44 | any spelling that normalises to an official image `x` gives registry `index.docker.io`, short name `library/x`, repository `index.docker.io/library/x`, tag `latest` and remote `index.docker.io/library/x:latest` |
| `ImageParse.ParseExplicitRegistry` | image/parse.go:31-44 | `host/path:tag` under a host that is not the default registry gives that registry, short name `path`, tag `tag` and remote `host/path:tag` |
| `ImageParse.ParseRejectsUppercase` | util/image/reference.go:199-202 | a grammar name whose path has an upper-case letter makes Parse fail with the not-lowercase error |
| `ImageParse.ParseRejectsImageId` | util/image/reference.go:96-99 | a grammar name whose normalised form is a 64-digit hexadecimal image ID makes Parse fail with the image-ID error |
| `ImageParse.ParseRejectsOfficialImageId` | util/image/reference.go:94-99 | an image ID written in any of the six official-image spellings, `docker.io/library/<id>` included, makes Parse fail with the image-ID error |
| `ImageParse.ParseRepo` | image/parse.go:83-111 | fails exactly when ParseNamed fails on the cleaned string; the scheme of the record is always empty |
| `ImageParse.ParseRepoMatchesParse` | image/parse.go:83-111 | ParseRepo succeeds and fails with Parse, and each record field equals the accessor of the same name on Parse's reference |

## Behaviour of the code worth knowing

These follow from the code and may surprise a reader:

- `ParseRepo` never sets `Scheme`, so it stays `""`. `DefaultScheme` (`https`) is declared and not used.
- `Reference.Name()` and `ShortName()` use `RemoteName()`, which re-splits the stored name. A bare
  `ubuntu` therefore has short name `library/ubuntu`, not the `debian` of the source comment.
- normalize is not idempotent (`NormalizeNotIdempotent`). A repeated `library/` loses one copy
  each time.
- Only the path is checked for capitals. A host such as `Registry.example.com` is stored as
  written (`NormalizeExplicitHost`).
- The alias `docker.io` does get the `library/` prefix stripped. `splitHostname` rewrites the
  alias before normalize compares the host (`NormalizeAliasHost`).
- The stored name does not always re-split into its original coordinates. On the default
  registry, `library/<host>/<repo>` comes back under `<host>` (`NormalizeCanMoveHost`). Docker Hub
  paths have two levels, and for those the coordinates are kept (`NormalizeKeepsCoordinates`).

## Left out

- The distribution grammar is left out. `reference.ParseNormalizedNamed`, and whether
  `reference.WithName`, `WithTag` and `WithDigest` accept their argument, are parameters: the
  operations of a `Grammar`.
  So are the reference syntax and the hostname normalisation that the library does itself.
- `ValidateID` is defined outside the modelled files. It is modelled as "exactly 64 characters from `0-9a-f`".
- The distribution library keeps a digest (or a tag) inside the value when one of its
  references is re-tagged (or re-digested). Only `String()` shows it, so the model leaves it out.
  The model keeps the variant the wrapper exposes.
- `String()`, `Name()` of the library value, and `digest.Digest` formatting are left out. A digest
  is an opaque string. The name is the `name` field of `Named`.
- Go's `strings.ToLower` is Unicode-aware. The model only lower-cases ASCII letters.
- Error messages and `fmt` formatting are left out. Errors are `ErrorKind` values.
- Interface type assertions, struct embedding and pointer identity are left out. A datatype
  with three variants replaces them.
- WithDefaultTag: assumes, through the `Grammar` type, that the library accepts `latest`. The
  source discards the error instead of handling it.
- ParseOfficialImage, ParseExplicitRegistry, ParseRejectsUppercase, ParseRejectsOfficialImageId: these are
  stated for grammar results of a given shape, because the grammar is a parameter. Examples such
  as `parse("ubuntu")` hold for any grammar that returns such a result.
