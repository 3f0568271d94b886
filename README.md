# protoc-gen-twirp_ts, modelled in Dafny

protoc-gen-twirp_ts is a protoc plugin. It takes the descriptors of a set of `.proto` files and writes one TypeScript file per input, plus the fixed Twirp runtime `twirp.ts`. Each output file holds:

- an import of every other generated file it needs;
- the enums;
- per message, a model interface `XModel`, a JSON interface `XJSON`, a class `X`, and two converters `XModelToJSON` and `JSONToX`;
- per service, a client class.

This project models the core of that generator and proves the names it emits agree with each other:

- **Type resolver** (`generator.go`, module `Resolver`). A table from fully qualified keys `.package.Name` to the defining file. It is a class whose `Set` writes the table in place. `Resolve`, `TypeName` and the import alias are pure functions of the table.
- **Second resolver** (`dependencies.go`, module `FlatResolver`). It refuses the Timestamp type and flattens names of the file's own package with `_`.
- **Type mapping** (`protoToTSType`, `isRepeated`, module `TypeMapping`). A field becomes a pair: its TypeScript type and its JSON type.
- **Naming helpers** (`removePkg`, `upperCaseFirst`, `camelCase`, `importName`, `importPath`, `tsFileName`, module `Naming`). `camelCase` is a method whose loop rewrites the pieces in place, proved equal to a specification function.
- **Template helpers** (`methodName`, `argumentName`, `modelName`, `jsonName`, `jsonType`, `typeToJSON`, `jsonToType`, `toJSON`, `fromJSON`, module `Templates`). These include the records the templates are executed on.
- **The builder** (`generate`, module `Generator`). One resolver serves the whole request. Every input file registers its enums, messages (three names each) and services, builds their records and collects its imports. The output files are appended in order.
  - Each loop is a method proved equal to a fold over the descriptors.
  - `Generate` is proved equal to the function `Response`.
- **What the builder guarantees** (module `GeneratorFacts`). The table each file leaves behind, the records in its output, and that every import names an earlier input file whose output exists.
- **Across the response** (module `OutputLinks`). A message field whose model key resolves points at an input no later than its own, of the same package. The field's conversions call the converters that input's output file declares for the message.
- **Name agreement** (module `NameAgreement`). The converters `toJSON` and `fromJSON` reference are exactly the ones the message template declares for the referenced message. `jsonType` applied to a field's TypeScript type gives back the JSON type `protoToTSType` chose.

Go's `strings` and `path` functions the code uses are re-specified in module `GoStrings`, over Dafny strings, with ASCII case conversion. Protobuf descriptors are plain datatypes (module `Descriptors`).

## Model

| member | source | states |
|---|---|---|
| Naming.RemovePkg | generator.go:257-260 | The result is the text after the last '.', or the whole input when it has none. It has no '.', is a suffix of the input, and is the whole input exactly when the input has no '.'. |
| Naming.RemovePkgOfQualified | generator.go:257-260 | Stripping any qualifier `q.` from a dot-free name gives the name back. |
| Naming.UpperCaseFirst | generator.go:262-264 | Same length; the first character upper-cased and every later one lower-cased. |
| Naming.UpperCaseFirstIdempotent | generator.go:262-264 | Applying upperCaseFirst twice gives what applying it once gives. |
| Naming.UpperCaseFirstOfScalars | template.go:282-285 | The three primitive type names become the JavaScript globals String, Number and Boolean. |
| Naming.CamelPieces | generator.go:269-275 | Piece 0 is lower-cased; every later piece gets its first character upper-cased and the rest lower-cased. |
| Naming.CamelCase | generator.go:266-278 | The loop that rewrites the '_'-pieces in place and joins them returns the specification value (pieces rewritten as above, joined without separator). |
| Naming.CamelCaseRemovesUnderscores | generator.go:266-278 | The camel-cased name contains no '_'. |
| Naming.CamelCaseOfWord | generator.go:266-278 | A name without '_' is only lower-cased. |
| Naming.CamelCaseOfSnakePair | generator.go:266-278 | `a_b` becomes lower(a) followed by upperCaseFirst(b). |
| Naming.ImportName | generator.go:280-284 | The alias followed by the extension of the base name is the base name. |
| Naming.ImportPath | generator.go:286-292 | A prefix of the file name, shorter by exactly the length of its last element's extension. |
| Naming.TsFileName | generator.go:294-296 | The import path followed by ".ts": it starts with the path, ends with ".ts" and is three characters longer. |
| Naming.ImportPathOfFile | generator.go:280-292 | For a file path, the import path plus the extension is the path itself, and the import path ends with the import alias. |
| Naming.TsFileNameExtension | generator.go:294-296 | The output file's extension is ".ts". |
| TypeMapping.ProtoToTSType | generator.go:209-251 | Each name ends in "[]" exactly when the field is repeated. A non-message kind gets the same name on both sides. |
| TypeMapping.RepeatedAppendsMarkerOnce | generator.go:245-248 | A repeated field gets the singular mapping plus exactly one "[]" on each name. The singular mapping has no "[]". |
| TypeMapping.NonMessageKindsAreScalar | generator.go:211-227 | double, fixed32, fixed64, int32 and int64 give number; bool gives boolean; every other non-message kind (string, enum, bytes, ...) gives string. All are primitive and equal on both sides. |
| TypeMapping.TimestampMapsToDate | generator.go:236-238 | Timestamp gives ("Date", "string"). |
| TypeMapping.MessageMapsToGeneratedTypes | generator.go:239-242 | Any other message X gives (XModel, XJSON), X being the type name without its package. |
| Resolver.FullTypeName | generator.go:54-59 | The key is "." + package + "." + name, with one trailing "[]" removed first. |
| Resolver.FullTypeNameIgnoresArrayMarker | generator.go:54-59 | A name and its array form give the same key. |
| Resolver.Resolve | generator.go:36-42 | Succeeds exactly for registered keys, with the registered file. Otherwise fails with "no such type". |
| Resolver.ResolveRegistered | generator.go:27-42 | After Set(fd, n), resolving fullTypeName(fd, n) gives fd. |
| Resolver.RegisterOverwrites | generator.go:27-34 | A later Set with the same key replaces the earlier file. |
| Resolver.RegisterKeepsOtherKeys | generator.go:27-34 | Set leaves every other key's resolution unchanged. |
| Resolver.Qualifier | generator.go:44-52 | The prefix TypeName adds is empty or ends in '.'. |
| Resolver.QualifierIgnoresArrayMarker | generator.go:44-59 | A name and its array form get the same prefix. |
| Resolver.TypeName | generator.go:44-52 | The result is the prefix followed by the name itself. |
| Resolver.TypeNameCases | generator.go:44-52 | The name comes back unchanged exactly when its key is unresolved or resolves to a file of the same package and file name. Otherwise the result is importName(file) + "." + name. |
| Resolver.SameResolutionSameQualifier | generator.go:44-52 | Two names whose keys resolve alike get the same prefix. |
| Resolver.DependencyResolver.constructor | generator.go:62 | The resolver starts with an empty table. |
| Resolver.DependencyResolver.Set | generator.go:27-34 | The table gains (or overwrites) one entry, for fullTypeName(fd, n) mapped to fd. Every other key resolves as before. |
| FlatResolver.Resolve | dependencies.go:24-33 | An unregistered key fails with "no such type"; this check comes before the Timestamp check. A registered Timestamp fails with "type is replaced by native Date". Every other registered key gives its file. |
| FlatResolver.ResolveRegistered | dependencies.go:14-33 | After Set(fd, n), every key other than Timestamp's resolves to fd. |
| FlatResolver.TimestampNeverResolves | dependencies.go:29-31 | Timestamp never resolves, registered or not. |
| FlatResolver.TypeName | dependencies.go:35-49 | A name not starting with '.' comes back unchanged. A fully qualified name comes back with no '.' at all. |
| FlatResolver.TypeNameOfOwnPackage | dependencies.go:41-48 | A name of the file's own package loses the package and has its remaining dots replaced by '_'. |
| FlatResolver.EmptyPackageDropsFirstCharacter | dependencies.go:41-46 | As written, in a file without a package, ".Foo" becomes "oo"; the corrected reading gives "Foo". |
| FlatResolver.PackagePrefixMangles | dependencies.go:41-46 | As written, in package "foo", ".foobar.Baz" becomes "ar_Baz". |
| FlatResolver.TypeNameScoped | dependencies.go:35-49 | The corrected TypeName: unqualified names unchanged, qualified ones dot-free. |
| FlatResolver.TypeNameScopedOfOwnPackage | dependencies.go:41-48 | Corrected: a name of the own package loses the package and is flattened. |
| FlatResolver.TypeNameScopedOfOtherPackage | dependencies.go:41-48 | Corrected: a name outside the package keeps its package, flattened. |
| FlatResolver.DependencyResolver.constructor | dependencies.go:10-12 | The resolver starts with an empty table. |
| FlatResolver.DependencyResolver.Set | dependencies.go:14-22 | One entry is written. Its key resolves to fd unless it is Timestamp's, and Timestamp still does not resolve. |
| Templates.MethodName | template.go:212-214 | Same length; only the first character is lower-cased. |
| Templates.MethodNameIdempotent | template.go:212-214 | Applying methodName twice gives what applying it once gives. |
| Templates.ArgumentName | template.go:216-218 | '_' followed by methodName of the unqualified name, so no '.' follows the name's first character. |
| Templates.ArgumentNameIgnoresQualifier | template.go:216-218 | A qualified input type gets the argument name of the unqualified one. |
| Templates.ModelName | template.go:220-222 | The name followed by "Model". |
| Templates.JsonName | template.go:224-226 | JSON keys are the proto field names, unchanged. |
| Templates.JsonType | template.go:228-236 | "XModel[]" becomes "XJSON[]" and "XModel" becomes "XJSON". Every other name is unchanged. |
| Templates.JsonTypeOfModel | template.go:228-236 | jsonType(x+"Model") = x+"JSON" and jsonType(x+"Model[]") = x+"JSON[]", for every x. |
| Templates.TypeToJSON | template.go:266-268 | The name followed by "ToJSON". |
| Templates.JsonToType | template.go:270-276 | A dot-free name gets "JSONTo" in front. A qualified one keeps its first '.' in place and grows by six characters. |
| Templates.JsonToTypeOfQualified | template.go:270-276 | "a.B" becomes "a.JSONToB": only the first '.' separates. |
| Templates.SingularType | template.go:278-280 | The element type is the type without its last two characters; on "X[]" this is exactly X. |
| Templates.ToJSON | template.go:301-314 | The result converts the camel-cased member: element-wise for a repeated field, by a call on it or by reading it for a singular one. A singular field is read directly exactly when its type does not end in "Model". |
| Templates.FromJSON | template.go:278-299 | The result converts the JSON key in the same shapes. A singular field not ending in "Model" is read directly. |
| Generator.EnumRecord | generator.go:88-98 | The enum record has the enum's name and every value's name and number, in order. |
| Generator.EnumRecordOf | generator.go:88-100 | The value loop builds the enum's record. |
| Generator.FieldRecord | generator.go:129-138 | The field record keeps the name and the repeated flag. Its two types end in the names protoToTSType chose. |
| Generator.FieldRecordsAt | generator.go:116-139 | Record i of a message's fields is field i's record. |
| Generator.RegisterMessage | generator.go:105-107 | Registering a message's three names keeps every file in the table named. |
| Generator.MethodRecord | generator.go:179-183 | The method record keeps the name, leaves Path empty, and ends its types in the unqualified input and output names. |
| Generator.MethodRecordsAt | generator.go:154-184 | Record i of a service's methods is method i's record. |
| Generator.AddImport | generator.go:119-127 | Imports only grow. A new key is the name of the file the reference resolves to. |
| Generator.MessageFields | generator.go:116-139 | The field loop computes the field records and the imports of the fold specification. |
| Generator.ServiceMethods | generator.go:154-184 | The method loop computes the method records and imports, the input type's import before the output type's. |
| Generator.AddEnums | generator.go:85-101 | The enum loop leaves the table and records of the enum fold. |
| Generator.AddMessages | generator.go:104-142 | The message loop leaves the table and records of the message fold. |
| Generator.AddServices | generator.go:145-187 | The service loop leaves the table and records of the service fold. |
| Generator.FileOutput | generator.go:195-201 | The output of input i is named tsFileName(name) and holds compiled records. |
| Generator.Response | generator.go:64-71 | One file more than the inputs, twirp.ts first. |
| Generator.ResponseFiles | generator.go:74-202 | Output i + 1 is input i's output, built on the table the earlier inputs left. |
| Generator.Generate | generator.go:61-205 | generate returns exactly the response specification. |
| GeneratorFacts.FileBuildTable | generator.go:84-187 | After a file, the table is the old table with every enum, message (three names) and service key of the file pointing at the file. |
| GeneratorFacts.FileBuildResolves | generator.go:84-187 | Every key the file registers resolves to the file once the file is done. |
| GeneratorFacts.EnumsBuildRecords | generator.go:85-101 | The enum records follow the enums, one each, in order. |
| GeneratorFacts.MessagesBuildRecords | generator.go:104-142 | The message records are one per message. |
| GeneratorFacts.MessagesBuildRecordAt | generator.go:104-142 | Message record i is built on the table just after message i registered its own names. |
| GeneratorFacts.ServicesBuildRecords | generator.go:145-187 | The service records are one per service. |
| GeneratorFacts.ServicesBuildRecordAt | generator.go:145-187 | Service record i is built on the table just after service i registered its name. |
| GeneratorFacts.FileBuildPasses | generator.go:77-187 | A file's records consist of the enum pass's enums, the message pass's messages and the service pass's services. |
| GeneratorFacts.FileEnums | generator.go:85-101 | A file's output declares its enums verbatim, in order. |
| GeneratorFacts.FileMessage | generator.go:104-142 | Message i of the output has class X, model XModel and JSON XJSON. Its fields are field records built after X registered its names. |
| GeneratorFacts.FileService | generator.go:145-187 | Service i of the output has the service's name, the file's package, and one record per rpc. |
| GeneratorFacts.FieldRecordOf | generator.go:133-138 | Field j of message i keeps the field's name and repeated flag. |
| GeneratorFacts.AddImportFrom | generator.go:119-127 | Added imports are keyed by the name of a known file of another package or file name, and hold its alias and path. |
| GeneratorFacts.FieldImportsFrom | generator.go:116-139 | The field loop keeps that invariant of the imports. |
| GeneratorFacts.MethodImportsFrom | generator.go:154-177 | The method loop keeps that invariant of the imports. |
| GeneratorFacts.FileBuildImports | generator.go:77-187 | Given a list of files that holds this file and every file the table points to: the table after the file still points only into the list, and each import names a file of the list of another package or file name, with its alias and path. |
| GeneratorFacts.FilesBuildFrom | generator.go:74-202 | The table after the first i files points only into them. |
| GeneratorFacts.OutputImportsFrom | generator.go:74-202 | The imports of output i come from the first i + 1 inputs. |
| GeneratorFacts.ImportsResolve | generator.go:119-127 | Every import of output i names an earlier input j of another package or file name, with j's alias. Its path plus ".ts" is the name of output j. |
| GeneratorFacts.ResponseShape | generator.go:195-201 | The response has twirp.ts first, then one compiled file per input, in input order, named importPath(name) + ".ts". |
| NameAgreement.JsonTypeUnderQualifier | template.go:228-236 | jsonType maps a qualified model interface, single or array, to the JSON interface under the same qualifier. |
| NameAgreement.JsonToTypeAfterQualifier | template.go:270-276 | jsonToType puts "JSONTo" right after a simple alias prefix. |
| NameAgreement.QualifierIsSimple | generator.go:44-52 | The prefix is a simple alias whenever the defining file's alias has no '.'. |
| NameAgreement.MessageFieldTypes | generator.go:129-138 | A field of message X is typed XModel and XJSON, each under the prefix of its own key, with "[]" when repeated. |
| NameAgreement.ScalarFieldJsonType | template.go:122-126 | For every non-message field, jsonType of its TypeScript type is its JSON type, and the two are equal. |
| NameAgreement.MessageFieldJsonType | template.go:122-126 | For every non-Timestamp message field whose model and JSON keys resolve alike, jsonType of its TypeScript type is its JSON type, qualified or not. |
| NameAgreement.RegisteredInterfacesResolveAlike | generator.go:105-107 | Registering a message makes its class, model and JSON keys resolve to its file. |
| NameAgreement.TimestampFieldJsonType | template.go:122-126 | A singular Timestamp field is typed Date with JSON type string. Its JSON interface still gets jsonType("Date") = Date. |
| NameAgreement.MessageFieldElement | template.go:301-308 | The element of a message field is `q + XModel`: it ends in Model and is not a primitive name. |
| NameAgreement.ToJSONCallsDeclared | template.go:301-314 | toJSON of a field of message m calls, directly or element-wise, exactly the converter `{{.Type}}ToJSON` the message template declares for m's record, under the field's prefix. |
| NameAgreement.FromJSONCallsDeclared | template.go:278-299 | When the field's prefix is a simple alias, fromJSON of a field of message m calls exactly the converter `JSONTo{{.Name}}` declared for m's record, under that prefix. |
| NameAgreement.PrimitiveConversions | template.go:282-285 | The element conversions of number, boolean and string call Number, Boolean and String. |
| NameAgreement.RepeatedScalarFieldConverters | template.go:301-308 | A repeated field of a non-message kind converts each element, both directions, through the global of its kind: Number for the number kinds, Boolean for bool, String otherwise. |
| NameAgreement.QualifiedFieldIsImported | generator.go:119-138 | When the field's own key resolves as its model key does (as for a message of the current package registered by one file), a prefix on the field's type names a file the imports hold, under its name, with alias and path. |
| NameAgreement.KeyDeterminesName | generator.go:54-59 | A key determines its package and its dot-free name. |
| NameAgreement.OtherPackageKeyAbsent | generator.go:54-59 | The three keys of a message of package a are no keys of package b. |
| NameAgreement.CrossPackageReferenceUnqualified | generator.go:44-59 | In a table holding only message X of package a, a field of package b referring to it is typed XModel without prefix, because the key is built on b's package. |
| NameAgreement.CrossPackageImportAdded | generator.go:119-127 | The same field still adds the import of a's file. |
| NameAgreement.QualifierNotImported | generator.go:119-138 | As written: when file g of package b and file a of package a both declare X, a field of package b typed ".a.X" is typed with g's alias, as g's XModel. Its only import is a's file, so g is not imported. |
| NameAgreement.ReferenceQualifier | generator.go:119-127 | The corrected prefix, keyed on the referenced type's own key as the import is. It is non-empty exactly when that key resolves to another output file, and then ends in '.'. |
| NameAgreement.FieldRecordCorrected | generator.go:129-138 | The corrected field record keeps the field's name and repeated flag. |
| NameAgreement.CorrectedQualifierIsImported | generator.go:119-138 | With the correction, a message field is typed as the corrected prefix plus its mapped type. A non-empty prefix names a file its import adds, under that file's name, with alias and path, whatever the table holds. |
| NameAgreement.CorrectedCrossPackage | generator.go:119-138 | In the table of the counterexample, the corrected field is typed with a's alias, as a's XModel: the model of the referenced message, under the alias of the imported file. |
| NameAgreement.CorrectedAgreesWhenKeysResolveAlike | generator.go:129-138 | Where the field's own key resolves as its model key does, the corrected type is the type the code writes. |
| NameAgreement.MethodInputConverterDeclared | template.go:76-79 | A method converts its argument through `q + {{.Type}}ToJSON` of its input message and promises the model interface of its output message. |
| NameAgreement.MethodOutputConverterDeclared | template.go:83 | When the prefix q is a simple alias, a method converts the response through `q + JSONTo{{.Name}}` of its output message. |
| NameAgreement.MethodArgumentUnqualified | template.go:216-218 | The argument name of a method is that of its unqualified input type. |
| NameAgreement.RepeatedTimestampType | generator.go:236-248 | A repeated Timestamp field is typed `q + Date[]`. |
| NameAgreement.RepeatedTimestampConverters | template.go:301-308 | As written, a repeated Timestamp field maps through "DateToJSON" and, unqualified, "JSONToDate". |
| NameAgreement.DateToJSONNeverDeclared | template.go:134 | No message record declares "DateToJSON", under any prefix. |
| NameAgreement.JSONToDateDeclaredOnlyByDate | template.go:142 | "JSONToDate" is declared exactly by a message named Date. |
| NameAgreement.TimestampRecordType | generator.go:236-248 | Without a message Date in the package, a Timestamp field is typed Date or Date[]. |
| NameAgreement.CorrectedTimestampPassesThrough | template.go:301-314 | With the correction, a Timestamp field, singular or repeated, is read as it is in both directions. |
| NameAgreement.CorrectedKeepsMessageFields | template.go:278-314 | The correction changes nothing for message fields, so the converter agreement above holds for it too. |
| OutputLinks.FilesBuildKeysDeclared | generator.go:74-202 | After the first i files, each key of the table is one that its file registers, for one of its enums, messages or services. |
| OutputLinks.FieldTableOwners | generator.go:104-138 | The table a message's fields are typed on points only into the inputs so far. Each key points at a file that registers it. |
| OutputLinks.ModelKeyOwner | generator.go:54-59 | Take a file whose declarations have simple names. If it registers the model key of x, it is of the key's package and declares message x or a name "xModel". |
| OutputLinks.ModelKeyOwnerAt | generator.go:119-138 | The model key of a field of output i resolves to an input j <= i of the same package. That input declares message x or a name "xModel". |
| OutputLinks.OutputMessage | generator.go:104-142 | Message m of output j is the record of input j's message m, built on the table its fields are typed on. |
| OutputLinks.OutputField | generator.go:129-138 | Field fi of message mi of output i is that field's record on that table. |
| OutputLinks.RecordCallsDeclared | template.go:278-314 | toJSON and fromJSON of a message field call the converters declared by the referenced message's record, under the field's prefix. fromJSON is covered when the prefix is a simple alias. |
| OutputLinks.FieldConverterDeclared | generator.go:74-202 | Take a message field of output i whose model key resolves. Output i holds the field's record. The key resolves to some input j <= i of the same package. The prefix is empty exactly when j has i's path, so j = i when all paths differ; otherwise it is j's alias. Unless j also declares a name "xModel", output j holds the record of message x, with model xModel. The field's toJSON and fromJSON call that record's converters. |

## Left out

- main.go and reader.go: reading the request from stdin, writing the response to stdout and protobuf (un)marshalling. These are I/O through a foreign library. The model starts from decoded descriptors.
- twirp.go: a fixed TypeScript source. Its text is not modelled; the response carries it as the content `TwirpSource`.
- compilable.go, `compileAndExecute` and the template texts (template.go:20-210). Executing Go's `text/template` is not modelled.
  - A compiled file is its `ProtoFile` record.
  - The names the templates declare are the functions `DeclaredToJSON` and `DeclaredFromJSON`, taken from template.go:134 and template.go:142.
  - The import template's skip of the alias "timestamp" (template.go:21) is therefore not modelled either.
- `log.Printf` and `log.Fatal` (generator.go:192, generator.go:196, template.go:203): logging and the abort on a template error.
- Descriptors are values, not pointers.
- Getters of unset optional fields become their zero values: an empty package, an empty name.
- A field always has one of the eighteen kinds. A descriptor whose kind is unset is not modelled.
- Nested message and enum declarations are not read by the code and are not in the model.
- The imports are a map. The order in which Go's template ranges over it (sorted keys) belongs to the template engine and is left out.
- Go's lazily allocated nil map in `Set` is modelled as an empty table from the start. Reads of a nil map behave the same.
- `ServiceMethodValues.path` is never set by the code; the model keeps it empty.
- Case conversion is ASCII only; Go's Unicode case mapping is not modelled.
- Go slicing panics become `requires` clauses:
  - methodName and upperCaseFirst need a non-empty name;
  - camelCase needs every piece after the first non-empty;
  - importPath needs a non-empty file name;
  - dependencies.go's TypeName needs a non-empty name, and a rest after the package;
  - the repeated branch of toJSON/fromJSON needs two characters of type.
- NameAgreement.MessageFieldJsonType: stated only when the model and JSON keys of the message resolve to the same file. A message named "FooModel" or "FooJSON" registered in another file can break the agreement.
- NameAgreement.FromJSONCallsDeclared: stated only when the prefix is a simple alias. A file name with several dots gives an alias containing '.', and jsonToType then splits inside the alias.
- NameAgreement.MethodOutputConverterDeclared: stated only when the prefix is a simple alias, for the same reason.
- NameAgreement.QualifiedFieldIsImported: stated only when the field's own key and its model key resolve to the same file. Take a field typed by X of another package, in a package where another file also declares X. It is qualified by that other file, which is not imported (third row under "## Findings").
- NameAgreement.CrossPackageReferenceUnqualified: proved for a table holding only the referenced message. When another file of the field's package declares X, the field is qualified by that file instead (`NameAgreement.QualifierNotImported`).
- OutputLinks.FieldConverterDeclared: stated for inputs whose enum, message and service names are protobuf identifiers (no '.', no "[]"). The record part is not promised when input j also declares a name "xModel", whose key is the model key of x. Nothing is promised when the model key does not resolve (a message of another package, or of a later file).
- GeneratorFacts.ImportsResolve: states that the import path plus ".ts" is the name of output j. The template writes the path relative to the importing file (`'./' + path`, template.go:22). The import therefore reaches output j only when the importing output sits at the top of the output tree. Resolution of relative module paths is not modelled.
- NameAgreement.TimestampFieldJsonType: stated only when no message named Date or string is registered in the package.
- NameAgreement.RepeatedScalarFieldConverters: stated only for an unqualified element type. A message named number, boolean or string in another file would qualify it.

In these points the model follows the code, not what a reader of the generator might expect:

- The code writes one output file per input file. There is no aggregation per package.
- A field of enum type maps to ("string", "string") through the default branch, not to the enum's name.
- `TypeName` builds the key on the current file's package, while the import is added for the field's own key. Take a reference to message X of another package. It stays unqualified when no file of the current package declares X (`NameAgreement.CrossPackageReferenceUnqualified`, `NameAgreement.CrossPackageImportAdded`). Otherwise it is qualified by the current package's file that declares X (`NameAgreement.QualifierNotImported`). Both are the third finding below.
- Registration and resolution are fused file by file. A reference to a file later in the request is not resolved and adds no import.
- generator.go's `Resolve` does not refuse Timestamp; only dependencies.go's does.

## Findings

| source | as written | input that shows it | evidently intended | confidence | as-written member | corrected member |
|---|---|---|---|---|---|---|
| template.go:301-308 | A repeated Timestamp field has type "Date[]". toJSON maps its elements through "DateToJSON" and fromJSON through "JSONToDate". No template and no runtime declares either. | a message with `repeated google.protobuf.Timestamp at = 1;` in a package without a message Date | The elements pass through unconverted, as the value of a singular Timestamp field does | high, not executed | NameAgreement.RepeatedTimestampConverters | NameAgreement.CorrectedTimestampPassesThrough |
| dependencies.go:43-45 | The package prefix is checked without the '.' that ends it, and then one more character is dropped. | package "" with ".Foo" gives "oo"; package "foo" with ".foobar.Baz" gives "ar_Baz" | Only "package." is stripped; other names keep their package, flattened | high, not executed | FlatResolver.PackagePrefixMangles | FlatResolver.TypeNameScopedOfOtherPackage |
| generator.go:44-52 | TypeName looks up the mapped name in the current file's package, while the import is added for the field's own key (generator.go:119-127). A reference to message X of another package is qualified by a file of the current package that declares X, which is not imported; with no such file it stays unqualified, naming a model its output does not declare. | g.proto and f.proto in package b, a.proto in package a; g and a both declare message X; f has a field of type .a.X. The field is typed g.XModel and only a.proto is imported | The prefix is the alias of the file that declares the referenced type, the file that is imported: a.XModel | high, not executed | NameAgreement.QualifierNotImported | NameAgreement.CorrectedCrossPackage |

The first finding is exhibited by `NameAgreement.DateToJSONNeverDeclared` and `NameAgreement.JSONToDateDeclaredOnlyByDate`. It is corrected by `NameAgreement.ToJSONCorrected` and `NameAgreement.FromJSONCorrected`, about which `NameAgreement.CorrectedTimestampPassesThrough` and `NameAgreement.CorrectedKeepsMessageFields` are proved. The second finding is also exhibited by `FlatResolver.EmptyPackageDropsFirstCharacter`. It is corrected by `FlatResolver.TypeNameScoped`, about which `FlatResolver.TypeNameScopedOfOwnPackage` and `FlatResolver.TypeNameScopedOfOtherPackage` are proved. The third finding is also exhibited by `NameAgreement.CrossPackageReferenceUnqualified`. It is corrected by `NameAgreement.ReferenceQualifier` and `NameAgreement.FieldRecordCorrected`, about which `NameAgreement.CorrectedQualifierIsImported`, `NameAgreement.CorrectedCrossPackage` and `NameAgreement.CorrectedAgreesWhenKeysResolveAlike` are proved.
