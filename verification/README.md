# apifox2interface: the schema-to-code core, in Dafny

apifox2interface turns an OpenAPI document into one TypeScript file:
- an `interface` for every request and response schema;
- an axios call for every operation;
- an `export type { ... }` list.

This project models the generation core of `src/utils/openapi2interface.ts` as pure functions over an immutable schema datatype. It proves the properties the code promises about that core.

Modules, in dependency order:

- `Text`: JavaScript `split` on a one-character separator, `join`, `filter(s => s)`, and the ASCII part of `toLowerCase`/`toUpperCase`. Split and join are proved to be inverse to each other.
- `Schemas`: the schema node (`$ref`, `type`, `items`, `properties`, `required`, each optional, as in the JSON object), plus `Option` and `Result`. `Result` carries the one failure the code has: `getTypeFromSchema` throws a `TypeError` on an `array` node without `items`.
- `TypeMapper`: `getTypeFromSchema` (`TypeOf`), with inline objects rendered by a mutually recursive `InlineFields`.
- `Naming`: the method table and `getTypeNameFromPath` (`TypeName`), and the function-name expression of `generateApiMethod` (`FunctionName`).
- `Declarations`: `generateTypeDefinition` (`InterfaceDecl`).
- `Operations`: per operation, the choices made:
  - the success response (`200` before `201`);
  - envelope detection (`success`, `code` and `data` all present);
  - the declarations and export names;
  - the return type and the `params` slot of the generated call.
- `Generator`: the three loops of `convertOpenApiToTypeScript` over paths and methods in key order. These are the declarations, the calls, and the export list, which ends in `BaseResponse`.
- `Scenarios`: worked examples (`GET /ping`, `POST /items`, `GET /users` and `GET /Users`) stated over whole operations.

Four behaviours of the code that a reader might not expect, all modelled as the code has them:

- Path segments keep their braces, and `{` has no upper case. So `/users/{id}` with `get` gives `GetUsers{id}Request` and `getUsers{id}` (`Naming.UsersByIdNames`).
- A `200` response whose schema is a raw `{ type: "string" }` still declares `GetPingResponse`, with the single member `[key: string]: string;`. The call's return type is `string` (`Scenarios.PingScenario`, `Scenarios.PingBody`).
- A request or response schema that is only a `$ref`, the common OpenAPI shape, declares an empty `interface … {}`. The declaration renderer never reads `$ref`, and such a node has no `type` (`Declarations.RefOnlyDeclaresEmptyInterface`).
- The generator can fail. Wherever the type mapper reaches an `array` node without `items`, `getTypeFromSchema` reads `$ref` of `undefined`, which throws. The model returns `Err(ItemsUndefined)` there (`TypeMapper.ArrayWithoutItemsFails`, `Generator.GenerateFailsIff`). If every array node has `items`, nothing fails (the contracts of `TypeMapper.TypeOf` and `Declarations.InterfaceBody`).

## Model

| member | source | states |
|---|---|---|
| Text.LastPartIsSuffixAfterLastSeparator | src/utils/openapi2interface.ts:256-257 | The last element of `split('/')` holds no `/`, is a suffix of the string, and is either the whole string or directly preceded by `/` |
| Text.LastPartAfterSeparator | src/utils/openapi2interface.ts:256-257 | Whatever precedes the last separator, a separator-free text after it is exactly the last element of the `split` |
| Text.LastPart | src/utils/openapi2interface.ts:257 | `refParts[refParts.length - 1]`. What it is, the text after the last separator, is stated by `Text.LastPartIsSuffixAfterLastSeparator` and `Text.LastPartAfterSeparator` |
| Text.Split | src/utils/openapi2interface.ts:150 | `split` on a one-character separator, as used here and at line 256: at least one part, and no part holds the separator. `Text.JoinSplit` and `Text.SplitJoin` show it is the inverse of `join` |
| Text.JoinSplit | src/utils/openapi2interface.ts:150-153 | Joining the parts of a `split` with the same separator gives back the original string |
| Text.SplitJoin | src/utils/openapi2interface.ts:150-153 | Splitting a join of separator-free parts gives back exactly those parts |
| Text.SplitAppend | src/utils/openapi2interface.ts:150 | Splitting `a + "/" + b` gives the parts of `a` followed by the parts of `b` |
| Text.NonEmpty | src/utils/openapi2interface.ts:151 | `filter(segment => segment)`: the kept parts are exactly the non-empty parts, and none is empty. Order and repeats are fixed by `Text.NonEmptySingle` and `Text.NonEmptyAppend` |
| Text.NonEmptySingle | src/utils/openapi2interface.ts:151 | A single part is kept exactly when it is non-empty |
| Text.NonEmptyAppend | src/utils/openapi2interface.ts:151 | Filtering a concatenation filters each half and keeps them in order. With `Text.NonEmptySingle` this determines the filter on every list, order and repeats included |
| Text.ToLower | src/utils/openapi2interface.ts:149 | Lower-casing keeps the length and maps every character through the ASCII lower-case map |
| Text.ToUpper | src/utils/openapi2interface.ts:203 | Upper-casing keeps the length and maps every character through the ASCII upper-case map |
| Text.Capitalize | src/utils/openapi2interface.ts:152 | `charAt(0).toUpperCase() + slice(1)`, also at line 167. `Text.CapitalizeChangesOnlyFirstCase` characterises it fully, and `Naming.SegmentStem` applies it to a path segment |
| Text.CapitalizeChangesOnlyFirstCase | src/utils/openapi2interface.ts:152 | Capitalising keeps the length, the tail after the first character and the lower-cased form, and leaves the first character not a lower-case letter. Together these fix the result: the first character upper-cased, the rest unchanged |
| Schemas.Lookup | src/utils/openapi2interface.ts:73-74 | A property lookup succeeds exactly when some entry has the key, and what it finds is that key's schema |
| TypeMapper.TypeOf | src/utils/openapi2interface.ts:253-290 | `getTypeFromSchema`. A non-empty `$ref` never fails and gives a name without `/`. A failure happens only at an `array` or an object with properties, never at a `$ref` node. If every array node in the tree has `items`, it succeeds |
| TypeMapper.InlineFields | src/utils/openapi2interface.ts:274-282 | The field loop of an inline object. It fails only if some remaining property's type fails, and it succeeds when every array node has `items` |
| TypeMapper.RefDecides | src/utils/openapi2interface.ts:254-258 | A non-empty `$ref` decides the type, whatever `type`, `items` or `properties` the node also has, and never fails |
| TypeMapper.RefIsLastSegment | src/utils/openapi2interface.ts:254-258 | A `$ref` maps to the text after its last `/`: no `/` in it, a suffix of the pointer, and either the whole pointer or preceded by `/` |
| TypeMapper.RefToName | src/utils/openapi2interface.ts:254-258 | A pointer such as `#/components/schemas/User`, a prefix, `/` and a name without `/`, maps to exactly that name |
| TypeMapper.EmptyRefIgnored | src/utils/openapi2interface.ts:254 | An empty `$ref` is falsy, so the node maps exactly as if it had none |
| TypeMapper.KeywordResults | src/utils/openapi2interface.ts:261-288 | Without `$ref`, the results `string`, `number`, `boolean`, `object` and `any` each hold exactly for their keyword(s): `string`; `number` or `integer`; `boolean`; `object` without properties; and a missing or unknown `type` |
| TypeMapper.UnknownTypeIsAny | src/utils/openapi2interface.ts:287-288 | A missing or unrecognised `type` maps to `any` and is never an error |
| TypeMapper.NestedArrayType | src/utils/openapi2interface.ts:269-270 | `n` nested arrays map to the item type followed by `n` times `[]`, and fail exactly when the item type fails |
| TypeMapper.ArrayWithoutItemsFails | src/utils/openapi2interface.ts:269-270 | An `array` node without `items` is the failure case |
| TypeMapper.InlineObjectShape | src/utils/openapi2interface.ts:271-283 | An object with properties maps to `{ `, then its fields in entry order joined by `, `, then ` }` |
| TypeMapper.InlineFieldsJoin | src/utils/openapi2interface.ts:275-281 | The field loop with its "not the last index" test writes the same text as joining the fields with `, ` |
| TypeMapper.FieldOptionalIff | src/utils/openapi2interface.ts:276-277 | A field is the property name, then `?` exactly when the name is not in `required`, then `: `, then the type, with nothing else in between |
| TypeMapper.Field | src/utils/openapi2interface.ts:277 | One member: name, `?` unless required, `: ` and the type, shared by the inline object here and the interface line at 235. Stated by `TypeMapper.FieldOptionalIff` and `Declarations.RenderersAgree` |
| Naming.TypeName | src/utils/openapi2interface.ts:139-154 | `getTypeNameFromPath`. For a lower-case recognised method it is the function name of the same call with its first letter upper-cased, followed by the suffix |
| Naming.FunctionName | src/utils/openapi2interface.ts:164-168 | The raw method followed by the capitalised segments. Its relation to the type name is stated by `Naming.TypeName` |
| Naming.MethodToken | src/utils/openapi2interface.ts:140-146 | `methodMap`. `Naming.TokenIsCapitalized` states each token is its key capitalised, and `Naming.TokenPrefixes` that different keys give tokens with different two-letter prefixes |
| Naming.TokenCapitalizesVerb | src/utils/openapi2interface.ts:140-153 | For a lower-case recognised method, the token followed by any text is the method followed by that text with its first letter upper-cased |
| Naming.Stem | src/utils/openapi2interface.ts:150-153 | The capitalised non-empty segments joined with nothing between them, the expression shared with lines 165-168. Stated by `Naming.StemAppend`, `Naming.LeadingSlashIgnored`, `Naming.SegmentStem` and `Naming.TwoSegmentStem` |
| Naming.PathSegments | src/utils/openapi2interface.ts:150-151 | The kept path segments are non-empty and hold no `/` |
| Naming.StemAppend | src/utils/openapi2interface.ts:149-153 | The capitalised stem of `a/b` is the stem of `a` followed by the stem of `b`, so extra, leading and trailing slashes change nothing |
| Naming.LeadingSlashIgnored | src/utils/openapi2interface.ts:150-151 | A leading `/` does not change the stem |
| Naming.SegmentStem | src/utils/openapi2interface.ts:150-153 | A single segment's stem is that segment with only its first character upper-cased |
| Naming.TwoSegmentStem | src/utils/openapi2interface.ts:150-153 | `/a/b` has the stem Capitalize(a) followed by Capitalize(b) |
| Naming.TokenIsCapitalized | src/utils/openapi2interface.ts:140-146 | Every token of the method table is its key with the first letter upper-cased |
| Naming.TypeNameInitial | src/utils/openapi2interface.ts:140-149 | A type name starts with `G`, `P` or `D`, the initial of its method token |
| Naming.SuffixesDistinguish | src/utils/openapi2interface.ts:149-153 | `Request`, `Response` and `ResponseData` never give one operation two equal names |
| Naming.MethodsDistinguish | src/utils/openapi2interface.ts:139-153 | Two methods on one path give different type names unless they lower-case to the same key |
| Naming.UsersByIdNames | src/utils/openapi2interface.ts:139-168 | `get` on `/users/{id}` gives `GetUsers{id}Request` and `getUsers{id}` |
| Declarations.PropertyLines | src/utils/openapi2interface.ts:231-236 | The member lines of an object from an entry on. They fail exactly when some remaining property's type fails |
| Declarations.InterfaceBody | src/utils/openapi2interface.ts:231-242 | The text between the braces. It fails exactly when the mapped type fails: some property's type for an object, the item type for an array with `items`. An untyped node gives an empty body. It succeeds when every array node has `items` |
| Declarations.InterfaceDecl | src/utils/openapi2interface.ts:228-246 | A declaration renders exactly when its body renders, opens with `interface <name> {` and a newline, and ends with `}` and a blank line |
| Declarations.InterfaceDeclText | src/utils/openapi2interface.ts:228-246 | When the body renders, the declaration is `interface <name> {` and a newline, that body, then `}` and a blank line |
| Declarations.PropertyLinesAreFields | src/utils/openapi2interface.ts:231-236 | The interface body of an object is one `  <field>;` line per property, in entry order |
| Declarations.RenderersAgree | src/utils/openapi2interface.ts:231-236 | The interface renderer and the inline-object renderer emit the same fields, with `?` on the same names: one as lines, the other joined by `, ` inside braces |
| Declarations.ArrayIndexSignature | src/utils/openapi2interface.ts:237-239 | An array with `items` declares a number index signature whose type is the array's type without its trailing `[]` |
| Declarations.KeySignature | src/utils/openapi2interface.ts:240-241 | Any other node with a non-empty `type` declares a string index signature of its own mapped type, and fails when that mapping fails |
| Declarations.RefOnlyDeclaresEmptyInterface | src/utils/openapi2interface.ts:228-246 | A node with a `$ref` and no `type` declares an empty interface, because the renderer never reads `$ref` |
| Operations.SuccessSchema | src/utils/openapi2interface.ts:68-70 | The JSON schema of `responses['200']` if that entry exists, else of `responses['201']`. Its consequences are stated by `Operations.Status200Shadows201` and `Operations.ReturnTypeChoice` |
| Operations.IsEnvelope | src/utils/openapi2interface.ts:73 | The envelope test: `success`, `code` and `data` are all properties. `Scenarios.EnvelopeOfThree` shows it on an example |
| Operations.EnvelopeData | src/utils/openapi2interface.ts:74 | `schema.properties.data`: the result is the schema stored under the `data` key |
| Operations.OperationDecls | src/utils/openapi2interface.ts:57-83 | The declaration loop for one operation. It declares one interface for a request schema and one for a success schema, never the same name twice. A request schema comes first, under the `Request` name |
| Operations.OperationExportNames | src/utils/openapi2interface.ts:101-123 | The export loop, written separately in the source. For one operation it lists exactly the names the declaration loop declares, in the same order |
| Operations.ResponseDeclMatchesReturnType | src/utils/openapi2interface.ts:66-80 | The declaration loop and the call agree. A response is declared exactly when the call has a return type. The declared name is the return type, except for a raw string schema, which is declared all the same. An envelope declares the schema of its `data` entry, and any other success schema is declared whole |
| Operations.Status200Shadows201 | src/utils/openapi2interface.ts:68 | A `200` entry without a JSON schema hides any `201`: there is no response declaration and the return type is empty |
| Operations.ReturnType | src/utils/openapi2interface.ts:175-188 | The `returnType` of `generateApiMethod`. Its contract is stated by `Operations.ReturnTypeChoice` |
| Operations.ReturnTypeChoice | src/utils/openapi2interface.ts:175-188 | The return type is empty exactly when there is no success schema. It is `string` exactly for a non-envelope schema typed `string`. Otherwise it is one of the operation's exported names, and never its request name |
| Operations.ParamSlot | src/utils/openapi2interface.ts:196-207 | `params` for `get` and `delete` in any letter case, `data` otherwise. The full statement is `Operations.ParamChoice` |
| Operations.ApiMethodOf | src/utils/openapi2interface.ts:163-207 | The signature `generateApiMethod` emits, as written, including the type argument `<` + return type + `>`. Its parts are stated by `Operations.ReturnTypeChoice`, `Operations.ParamChoice` and `Operations.EmptyTypeArgumentsAsWritten` |
| Operations.ParamChoice | src/utils/openapi2interface.ts:196-207 | A `params` argument exists exactly when a request schema exists. Its type is the operation's first exported name. It goes in the query slot exactly for `get` and `delete`, in any letter case |
| Operations.TypeArguments | src/utils/openapi2interface.ts:201 | The corrected type-argument list (see Findings): empty exactly for an empty return type, and otherwise the list the source writes |
| Operations.TypeArgumentsAsWritten | src/utils/openapi2interface.ts:201 | `<` + return type + `>` as the source writes it; `Operations.EmptyTypeArgumentsAsWritten` states when this is `<>` |
| Operations.EmptyTypeArgumentsAsWritten | src/utils/openapi2interface.ts:175-201 | As written, a generated call carries the empty type-argument list `<>` exactly when the operation has no success schema |
| Operations.ApiMethodOfCorrected | src/utils/openapi2interface.ts:163-207 | The corrected call. It differs from the call as written only in its type argument. It never carries `<>`, is untyped exactly when there is no success schema, and equals the call as written whenever there is one |
| Generator.AllDecls | src/utils/openapi2interface.ts:51-85 | The declaration loop over every path and method, in key order. `Generator.ExportsAreDeclaredNames` relates it to the export loop |
| Generator.AllExportNames | src/utils/openapi2interface.ts:101-123 | The export loop over every path and method. `Generator.ExportsAreDeclaredNames` states that it lists the declared names in order |
| Generator.AllMethods | src/utils/openapi2interface.ts:88-94 | The call loop as written: one call per endpoint, in the same order. Stated by `Generator.OutputShape`, `Generator.MethodTypesExported` and `Generator.AllMethodsCorrected` |
| Generator.PathEndpoints | src/utils/openapi2interface.ts:53-55 | The methods of one path in key order, each paired with that path and its operation |
| Generator.Endpoints | src/utils/openapi2interface.ts:51-55 | The path-then-method order that all three loops share. `Generator.EndpointsRecognisedFromDoc` carries the method table over, and `Generator.OutputShape` states the order of the calls |
| Generator.Generate | src/utils/openapi2interface.ts:51-127 | The whole run: the declaration text, the calls as written, and the export names followed by `BaseResponse`. `Generator.GenerateFailsIff` states when it fails, `Generator.RenderAllConcat` what the declaration text is, and `Generator.OutputShape` what else it returns |
| Generator.AllMethodsCorrected | src/utils/openapi2interface.ts:88-94 | The call loop with corrected type arguments. No call carries `<>`, and each call equals the one as written apart from its type argument |
| Generator.RenderAll | src/utils/openapi2interface.ts:51-85 | The declaration text renders exactly when every declaration renders. `Generator.RenderAllConcat` states what the text is |
| Generator.RenderAllConcat | src/utils/openapi2interface.ts:51-85 | When rendering succeeds, the text is the declarations' texts concatenated in emission order, as the repeated `code +=` builds it |
| Generator.ExportsAreDeclaredNames | src/utils/openapi2interface.ts:101-123 | Across the whole document, the export loop lists the declared names in declaration order |
| Generator.EndpointExportsIncluded | src/utils/openapi2interface.ts:102-123 | Whatever one (path, method) exports is in the document's export list |
| Generator.MethodTypesExported | src/utils/openapi2interface.ts:96-126 | Every generated call's parameter type is exported, and so is its return type unless that is empty or `string` |
| Generator.GenerateFailsIff | src/utils/openapi2interface.ts:51-85 | Generation fails exactly when some declaration fails to render |
| Generator.OutputShape | src/utils/openapi2interface.ts:88-126 | One call per (path, method) in path-then-method order, each named by its function name; the export list has one entry per declaration plus `BaseResponse`, which comes last |
| Scenarios.PingScenario | src/utils/openapi2interface.ts:163-188 | `GET /ping` with a raw string response is the call `getPing`, with no parameter and return type `string`, and declares `GetPingResponse` |
| Scenarios.PingBody | src/utils/openapi2interface.ts:240-241 | A raw string schema renders as the single member `[key: string]: string;` |
| Scenarios.EnvelopeOfThree | src/utils/openapi2interface.ts:73-74 | An object whose properties are `success`, `code` and `data` is an envelope around its `data` schema |
| Scenarios.ItemsNames | src/utils/openapi2interface.ts:139-168 | `post` on `/items` gives `PostItemsRequest`, `PostItemsResponseData` and `postItems` |
| Scenarios.ItemsDecls | src/utils/openapi2interface.ts:57-80 | `POST /items` with a request and an enveloped response declares the request under `PostItemsRequest`, then only the envelope's `data` under `PostItemsResponseData` |
| Scenarios.ItemsCall | src/utils/openapi2interface.ts:163-207 | The call is `postItems`, and its `params` of type `PostItemsRequest` go in the body |
| Scenarios.ItemsReturn | src/utils/openapi2interface.ts:175-201 | The call returns `PostItemsResponseData` and types `axios.request` with it |
| Scenarios.ItemsDataInterface | src/utils/openapi2interface.ts:228-246 | An optional `id: number` renders as `interface PostItemsResponseData {` with the member `id?: number;` |
| Scenarios.ItemsRequestInterface | src/utils/openapi2interface.ts:228-246 | A required `name: string` renders as `interface PostItemsRequest {` with the member `name: string;`, without `?` |
| Scenarios.ExportNamesMayRepeat | src/utils/openapi2interface.ts:101-126 | `/users` and `/Users` derive the same name, so the export list carries `GetUsersResponse` twice |

## Left out

- The typeconv conversion (`convertFromTypeconv`, src/utils/openapi2interface.ts:3-14 and 30). It is an asynchronous call into a foreign library, so its output is not modelled.
- The fixed header and comment text, the `BaseResponse<T>` interface, the JSDoc blocks, the `summary` line and the literal body of the axios call. They are constant text without decisions. The model keeps the call's decisions: name, parameter, slot, return type, the type argument as written, upper-cased verb and `/api` URL.
- The assembly of these pieces into one string, with `,\n  ` between export names. It is fixed concatenation around the modelled parts.
- Configuration prompts and storage, fetching the document over HTTP, writing the output file, and the command-line wiring. These are I/O and live outside `src/utils/openapi2interface.ts`.
- Method keys outside `get`, `post`, `put`, `delete` and `patch`. The code then prints the text `undefined` in type names; the model requires a recognised method instead.
- Case mapping is ASCII only. JavaScript's `toUpperCase` and `toLowerCase` also map non-ASCII letters.
- `Object.keys` and `Object.entries` order: the model takes the document's key order as given. JavaScript lists integer-like keys first.
- The document is assumed to be well-formed JSON as the code expects. `$ref` and `type` are strings, schemas are objects (not JSON booleans), and keys are not duplicated.
- `Scenarios.PingBody` states the body of `GetPingResponse`, not the whole declaration text, whose frame is stated in general by `Declarations.InterfaceDecl`.

## Findings

| source | as written | input that shows it | evidently intended | confidence | as-written member | corrected member |
|---|---|---|---|---|---|---|
| src/utils/openapi2interface.ts:201 | `axios.request<${returnType}>` with `returnType` left `''` by lines 175-188 | any operation without a `200`/`201` JSON schema, e.g. `DELETE /items/{id}` answering only `204` | no type-argument list, `axios.request(`, because `axios.request<>(` is an empty type-argument list that TypeScript rejects | not executed | Operations.EmptyTypeArgumentsAsWritten | Operations.ApiMethodOfCorrected |
