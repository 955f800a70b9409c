# protoc-gen-grpc-funcs in Dafny

A model of the pure core of `protoc-gen-grpc-funcs`. This protoc plugin
reads a code generator request: the descriptors of a set of .proto files.
For every gRPC service it writes one Go file, `<file>.assembly.go`. That
file holds a `<Service>Assembly` struct with one callback field per RPC
method, a forwarding method per RPC, `Register`, and a constructor that
fills every field with a stub answering `codes.Unimplemented`.

The model follows the program's own steps:

- `Strings` and `Paths` are the pieces of Go's `strings` and `path` packages
  that the generator calls. `path.Clean` is modelled element by element, so
  `path.Join` is exact and not a plain concatenation.
- `Descriptor` holds the descriptor records the generator reads. It also holds
  the fatal errors, as a `Result` type.
- `Naming` resolves a file's names:
  - `getGoPackage` and `goPackageOption` read the `go_package` option;
  - `goPackageName` gives the Go package name;
  - `goFileName` gives the output file name;
  - `baseName` gives a file's last path element without its last dotted suffix.
- `TemplateData` holds the `params` and `method` records the template reads,
  with the `TrimmedInput`, `TrimmedOutput` and `StreamName` helpers.
- `Template` models what the template produces for one service. It is a
  `Unit` of declarations (struct fields, forwarders, stubs, register function,
  constructor), not text. The four RPC shapes select the signatures.
- `Plugin` models `parseRequest` (one `Params` per service, file after file)
  and `generateResponse` (one output file per `Params`). It also models the
  whole run, with fatal errors as `Failure` results.

`go/format.Source` is a parameter, `gofmt: Unit -> FormatResult`. It either
formats a rendered unit or rejects it as malformed. A rejection ends the run.

The program's own comments disagree with its code on one point, and the
model follows the code. The comment at main.go:125 says that a
`;`-delimited suffix of `go_package` overrides the package name. But
`getGoPackage` (main.go:92-107) has already cut the option at its first
`;` before `goPackageOption` reads it (main.go:114). So the branch at
main.go:126-130 is never taken. For example, `"github.com/org/pkg;mypkg"`
gives package `pkg`, not `mypkg`, and the output goes under
`github.com/org/pkg`. `Naming.InterpretGoPackage` keeps the `;` branch as
written, and `Naming.SemicolonOverrideUnreachable` and `Naming.AliasIgnored`
prove that it is dead.

## Model

| member | source | states |
|---|---|---|
| Strings.IndexOf | main.go:126 | strings.IndexByte: -1 exactly when the character is absent; otherwise the position holds it and no earlier position does |
| Strings.LastIndexOf | main.go:82-86 | strings.LastIndex: -1 or a position holding the character, with no occurrence after it |
| Strings.TrimPrefix | main.go:225 | strings.TrimPrefix: when the prefix is present, prefix + result is the input; otherwise the input is unchanged |
| Strings.Split | main.go:97 | strings.Split: one more piece than separators, no piece holds the separator, and joining the pieces gives the input back |
| Strings.SplitJoin | main.go:96-103 | Split inverts Join for pieces without the separator |
| Paths.Split | main.go:71 | path.Split: dir + file is the path, file is the last element, dir is empty or ends in a slash |
| Paths.Clean | main.go:72 | path.Clean: never empty, "." for the empty path, and rooted exactly when its input is rooted |
| Paths.Join | main.go:72 | path.Join: empty exactly when both elements are, and otherwise rooted exactly when its first non-empty element is |
| Paths.Ext | main.go:62 | path.Ext: a suffix of the path that is empty or starts with its only dot and holds no slash |
| Paths.ExtInLastElement | main.go:62 | path.Ext is empty exactly when the last path element has no dot |
| Paths.CleanUnderDir | main.go:72 | cleaning dir/file cleans dir's elements and puts file last |
| Paths.JoinKeepsFile | main.go:71-72 | joining a plain file name under any non-empty directory leaves it as the last element of the result |
| Paths.JoinPlain | main.go:72 | for a directory with only plain elements, path.Join is dir + "/" + file |
| Naming.GetGoPackage | main.go:94-107 | fails with the multiple-';' error exactly when go_package has two or more ';'; otherwise gives the text before the first ';' (all of it when there is none) |
| Naming.InterpretGoPackage | main.go:113-132 | ok exactly when the option is non-empty; a bare name is the package with no import path; with a slash the whole text is the import path and the package is its last element; with a slash and ';' the two sides split at the ';' |
| Naming.GoPackageOption | main.go:113-132 | the same failure condition and error as getGoPackage; otherwise the interpretation of the truncated option |
| Naming.SemicolonOverrideUnreachable | main.go:114-131 | after truncation, the import path is the whole option (or empty when it has no slash) and the package is its last element; neither holds a ';' |
| Naming.AliasIgnored | main.go:94-131 | for go_package "importPath;alias" with a slash in importPath, the package is the last element of importPath, and the output goes under importPath; the alias is dropped |
| Naming.BaseName | main.go:80-90 | the result is a prefix of the last path element; it is that whole element exactly when the element has no dot, and otherwise stops at the element's last dot |
| Naming.GoPackageName | main.go:44-57 | fails exactly as getGoPackage does; otherwise the package from go_package when the option is set, else the package clause when non-empty, else the base name |
| Naming.ExtIsSourceSuffix | main.go:62 | path.Ext answers ".proto" / ".protodevel" exactly when the name ends with that text |
| Naming.SourceStem | main.go:62-63 | reference stem: a prefix of the name that, followed by ".protodevel" or ".proto", gives the name back when the name ends with it, and the whole name otherwise |
| Naming.StemIsSourceStem | main.go:62-63 | the Ext-based suffix removal equals removing a final ".protodevel" or ".proto" and nothing else |
| Naming.GeneratedName | main.go:61-65 | the name without a .proto/.protodevel suffix, with ".assembly.go" appended |
| Naming.Relocate | main.go:69-76 | without an import path the name is unchanged; with one, the generated file name stays the last element and the name keeps its ".assembly.go" ending; under an import path of plain elements the result is exactly importPath + "/" + file |
| Naming.Relocated | main.go:71-73 | moving a generated name under an import path keeps its file name last and its ".assembly.go" ending |
| Naming.GoFileName | main.go:60-77 | fails exactly as getGoPackage does; always ends in ".assembly.go"; with no slash in the option it is the stem plus the marker; with one it is path.Join of the import path and the generated file name, which stays the last element |
| TemplateData.TrimmedInput | main.go:224-226 | drops the exact ".<package>." prefix from the input type when present, leaves it whole otherwise |
| TemplateData.TrimmedOutput | main.go:227-229 | the same trimming for the output type |
| TemplateData.ForeignTypeKept | main.go:225 | a type of a different single-segment package keeps its full qualifier |
| TemplateData.EmptyPackageTrimsNothing | main.go:225 | with an empty package clause the prefix is "..", so a top-level type is not trimmed |
| TemplateData.NestedPackagePartlyTrimmed | main.go:225 | a type `.<package>.<inner>.<name>` of a package nested in the method's package loses only the `.<package>.` qualifier, leaving `<inner>.<name>` |
| TemplateData.StreamNameRoundTrip | main.go:230-232 | for a service name without '_', the stream handle name splits back into the service and method names |
| TemplateData.StreamName | main.go:230-232 | the stream handle name is the service name, '_', the method name and "Server", each at its own position |
| TemplateData.StreamNamesCollide | main.go:230-232 | two different service/method pairs can give the same stream handle name |
| Template.ClassifyFlagsInverse | main.go:254-267 | the two streaming flags and the four shapes are in bijection |
| Template.Classify | main.go:254-267 | the shape chosen by the template's two flag tests has exactly those flags |
| Template.SignatureOf | main.go:253-268 | client streaming gives a stream-only signature, server streaming only gives input and stream, neither gives context and input returning the output; the input, output and stream types come from the helpers |
| Template.SignatureFollowsShape | main.go:253-268 | the template's nested flag tests pick the signature the shape table assigns |
| Template.OnlyUnaryReturnsReply | main.go:253-268 | only a unary method takes a context and returns a reply; every other shape takes a stream |
| Template.FieldOf | main.go:253-268 | the callback field is `<Name>Method`, with the signature the shape table gives the method's shape |
| Template.ForwarderOf | main.go:271-297 | the forwarder is a method `<Name>` of the struct that calls the method's callback field with the field's signature and exactly its parameters |
| Template.StubOf | main.go:308-331 | the stub fills the method's callback field with the same signature, fails with Unimplemented and "<Name> has not been implemented", and returns a nil reply only for a unary method |
| Template.Render | main.go:234-333 | package clause, struct type `<Service>Assembly`, Register<Service>Server and New<Service>Assembly; one field, one forwarder and one stub per method, in method order |
| Template.RenderConsistent | main.go:271-331 | each method's forwarder calls its own callback field with the same signature and arguments; its stub fills that field, fails with Unimplemented and gives a nil reply only for unary methods |
| Plugin.EntryDescribes | main.go:140-156 | a service's entry carries the service, the file's names and package, and the methods tagged with service and package |
| Plugin.MethodsOf | main.go:148-156 | one Method per method of the service, in order, with its descriptor and name, the service's name and the file's package |
| Plugin.Entry | main.go:140-156 | the entry describes the service (service, file name, package, tagged methods) and carries the given Go package and file names |
| Plugin.ParseFile | main.go:138-158 | a file without services gives no entries and never fails; otherwise it fails exactly when go_package has more than one ';', and gives one entry per service describing it, with the file's resolved names |
| Plugin.Gather | main.go:137-161 | the per-file step run over the files in order: success exactly when every file succeeds; otherwise the first failing file's error |
| Plugin.GatherAt | main.go:137-161 | entry j of file i sits after the entries of all earlier files |
| Plugin.GatherSkip | main.go:137-138 | a file that yields no entries changes nothing |
| Plugin.ParseRequest | main.go:135-163 | succeeds exactly when every file that has services can be resolved; then there is one entry per service of every file; on failure, the error is the multiple-';' error of the first such file that cannot be resolved |
| Plugin.ParseRequestAt | main.go:137-158 | the entry for service j of file i is that file's own entry j, after the services of the earlier files |
| Plugin.ParseRequestEntry | main.go:140-156 | the entry for service j of file i describes that service of that file |
| Plugin.EntryNames | main.go:144-145 | the entry for service j of file i carries file i's goPackageName and goFileName |
| Plugin.ServicelessFileIgnored | main.go:137-138 | inserting a file without services anywhere leaves the result unchanged, even when its go_package is invalid |
| Plugin.GenerateResponse | main.go:166-191 | succeeds exactly when the formatter accepts every rendering; then one output per entry, in order, named by its goFileName and holding the formatted rendering; otherwise the first rejection's reason |
| Plugin.Run | main.go:20-29 | any file with services and an unresolvable go_package makes the run fail with the multiple-';' error; a successful run has one output per service |
| Plugin.RunOutputName | main.go:144-186 | the output for service j of file i is named by file i's goFileName, so services of one file share an output name |

## Left out

- Reading the request from stdin and writing the response to stdout (`decodeRequest`, `encodeResponse`, main.go:31-42, 193-203): this is protobuf I/O, and the model starts from the decoded descriptors.
- `go/format.Source` internals: the formatter is the parameter `gofmt`.
- The exact text, whitespace and comments of the template: `Template.Render` gives the declarations the template writes, not the characters.
- The error from `tmpl.Execute` (main.go:171-173): the template's fields all exist in `params`, so with the model's total records this cannot occur.
- `log.Fatal`: every fatal path is a `Failure` result carrying the error kind, and the process exit and message text are not modelled.
- The nil dereference of `*d.Name` in `goFileName` for a file without a name: an unset name is the empty string.
- The unused `fileName` field of `params`.
- Each service recomputes its file's names in the code, while the model computes them once per file. The names are pure, so the results are the same.
- Plugin.Run: states only failure on an unresolvable file and the output count. The per-output content comes from `Plugin.GenerateResponse` and the names from `Plugin.RunOutputName`.
