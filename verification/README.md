# Plugin-method generation of the Magento PhpStorm plugin, in Dafny

This project models how the Magento 2 PhpStorm plugin writes the methods of an
interceptor ("plugin") class. A plugin method comes in one of three kinds
(before, after, around) and is generated for one target method of one target
class. The model covers:

- the plugin method's name (`beforeSave` for `save`);
- its parameter list, with a type hint for the subject, the slot each kind inserts (`$result` or `callable $proceed`) and the target's own parameters with shortened namespaces;
- the type hint chosen from a type set and the project's PHP language features;
- the return-variables text passed on to the target;
- the return-type hint derived from the target's declared return type;
- the attribute map handed to the method template;
- the scan that pairs each generated method with the doc comment before it.

Modules:

- `PluginTypes`: the plugin kind, the PHP feature profile, the IDE queries (`Host`) and the literal constants.
- `JavaText`: the `java.lang.String` operations the generator relies on. It covers ASCII case folding, `contains`, `startsWith`, and `split` on a one-character separator with Java's removal of trailing empty pieces.
- `ConvertPluginParams`: `ConvertPluginParamsToString`, covering the parameter list and its type hints.
- `PluginMethodNames`: the method name and `getReturnVariables`.
- `DocTypeHints`: `isDocTypeConvertable`, `typeWithNull`, `convertNullableType` and `convertDocTypeToHint`.
- `PluginAttributes`: `getAccessMethodAttributes`, `fillAttributes` and `addTypeHintsAndReturnType`.
- `PluginMethodPairing`: the child scan of `createPluginMethods`.

The IDE's answers enter as parameters:

- `FeatureProfile` says which PHP language features the project supports.
- `Host.isPrimitive` says whether a type name is primitive.
- `Host.presentation` renders a type set, in the element's use-operator scope or in none.
- Each parameter of the target is carried as the text the IDE renders for it.
- The target class is carried with its declared and globally resolved type sets.

Places where the source would throw become preconditions. Each is named:

- `NullableBaseResolves`: `"?".concat(null)` on a nullable union whose base type gets no hint.
- `ParamTextRenderable`: the last-piece lookup on a parameter text made only of backslashes.
- `Generatable`: the two above (`NullableBaseResolves` for the target class's types in local scope, `ParamTextRenderable` for every parameter), plus `substring(0, 1)` on an empty method name.
- `NullableSplitSafe`: the split in `convertNullableType`. It always holds where the generator calls it.

### Behaviour of the source that the model keeps

The model follows the code. Some of its behaviour is easy to misread:

- An after plugin's parameter list also carries all the target's parameters after `$result` (`ParamListCarriesParameters`).
- The `$result` slot of an after plugin is typed with the raw return-type text, not a resolved hint, and is untyped only for a missing or `void` return type.
- Entries of the list are joined with a bare comma. Only the inserted slots carry `, `.
- `VOID_RETURN_TYPE` is set whenever the project supports `void` returns, whatever the target returns (`VoidAttributeIgnoresTarget`).
- A target without a return type reads as the empty text, which counts as convertible. So `SCALAR_TYPE_HINT` and `RETURN_TYPE` are set to the empty text when their features are supported (`MissingReturnTypeGivesEmptyHints`).
- The null test of a two-way union is a substring test on the upper-cased text. `Foo|NullFoo` converts to `?Foo` when nullable types are supported, and to `Foo` otherwise (`NullMentionDropsSecondSide`).
- A parameter text with a backslash past its first character is shortened to what follows its last backslash, default value included. `int $mode = \Magento\Foo::MODE` becomes `Foo::MODE`, losing the type and the variable name (`ShortenedToLastSegment`).
- For a class type the hint is the IDE's presentation of the declared types. An empty presentation gives no hint.

## Model

Paths are relative to the plugin's repository root.

| member | source | states |
|---|---|---|
| ConvertPluginParams.ConvertTypeToString | src/com/magento/idea/magento2plugin/actions/generation/generator/code/util/ConvertPluginParamsToString.java:125-148 | a one-type set never gets an empty hint; a primitive failing the scalar/array/callable gate gets none; a gate-passing type ending in `]` is hinted `array`, any other gate-passing type gets the presentation of the declared types without null in the given scope, or no hint when that presentation is empty |
| ConvertPluginParams.FilterNull | src/com/magento/idea/magento2plugin/actions/generation/generator/code/util/ConvertPluginParamsToString.java:150-166 | stated by `NullableUnionHint`: removing the types equal to `\null` ignoring case leaves the other member of a nullable pair |
| ConvertPluginParams.GetTypeHint | src/com/magento/idea/magento2plugin/actions/generation/generator/code/util/ConvertPluginParamsToString.java:95-123 | a hint is never empty; a one-type set is converted directly; a set that is neither a single type nor a two-type set with exactly one null gets no hint |
| ConvertPluginParams.ClassTypeHint | src/com/magento/idea/magento2plugin/actions/generation/generator/code/util/ConvertPluginParamsToString.java:137-144 | a non-primitive single type not ending in `]` gets, under every profile, the presentation of the declared types without null in the given scope, and no hint when that presentation is empty |
| ConvertPluginParams.ShortenParamText | src/com/magento/idea/magento2plugin/actions/generation/generator/code/util/ConvertPluginParamsToString.java:58-64 | stated by `ShortenedToLastSegment`: verbatim without an inner backslash, else the non-empty text after the last backslash once trailing backslashes are dropped |
| ConvertPluginParams.Entry | src/com/magento/idea/magento2plugin/actions/generation/generator/code/util/ConvertPluginParamsToString.java:58-77 | stated by `ParamListIsJoin`, `FirstEntryIsSubject` and `PluginAttributes.PluginParameterEntries`: position 0 is `$subject` with its local-scope hint, later non-parameter elements keep their name with a global-scope hint, parameters are their shortened text |
| ConvertPluginParams.Insertion | src/com/magento/idea/magento2plugin/actions/generation/generator/code/util/ConvertPluginParamsToString.java:78-88 | stated by `KindInsertsAfterFirstEntry`: nothing for before, `, T $result` or `, $result` for after, `, callable $proceed` for around |
| ConvertPluginParams.ShortenedToLastSegment | src/com/magento/idea/magento2plugin/actions/generation/generator/code/util/ConvertPluginParamsToString.java:58-64 | a parameter text without a backslash past its first character is kept verbatim; any other becomes the non-empty text after its last backslash once trailing backslashes are dropped |
| ConvertPluginParams.Execute | src/com/magento/idea/magento2plugin/actions/generation/generator/code/util/ConvertPluginParamsToString.java:42-93 | the string builder's result is the declarative parameter list: entries in input order, a comma between them, the kind's slot after the first |
| ConvertPluginParams.RenderAll | src/com/magento/idea/magento2plugin/actions/generation/generator/code/util/ConvertPluginParamsToString.java:52-77 | every element is rendered, in input order, each according to its position |
| ConvertPluginParams.AppendAll | src/com/magento/idea/magento2plugin/actions/generation/generator/code/util/ConvertPluginParamsToString.java:51-90 | appending with a comma before every entry but the first, and the slot right after the first, builds the assembled list |
| ConvertPluginParams.AssembledIsJoin | src/com/magento/idea/magento2plugin/actions/generation/generator/code/util/ConvertPluginParamsToString.java:51-90 | the text built from the first n entries is the comma-join of the first n slots |
| ConvertPluginParams.ParamListIsJoin | src/com/magento/idea/magento2plugin/actions/generation/generator/code/util/ConvertPluginParamsToString.java:51-90 | the list is the comma-join of the entries with the kind's slot on the first; each entry renders its own element; every later non-parameter element is named by its own name and hinted in global scope |
| ConvertPluginParams.FirstEntryIsSubject | src/com/magento/idea/magento2plugin/actions/generation/generator/code/util/ConvertPluginParamsToString.java:66-76 | the list starts with the first element's local-scope hint, `$subject` whatever its name, then the kind's slot |
| ConvertPluginParams.KindInsertsAfterFirstEntry | src/com/magento/idea/magento2plugin/actions/generation/generator/code/util/ConvertPluginParamsToString.java:78-88 | the after and around lists are the before list with `, T $result`, `, $result` or `, callable $proceed` spliced in right after the first entry, and nothing else differs |
| ConvertPluginParams.NullableUnionHint | src/com/magento/idea/magento2plugin/actions/generation/generator/code/util/ConvertPluginParamsToString.java:108-119 | a type paired with a null type gets the other type's hint, prefixed with `?` exactly when nullable types are supported |
| ConvertPluginParams.ScalarHintsOnlyAdd | src/com/magento/idea/magento2plugin/actions/generation/generator/code/util/ConvertPluginParamsToString.java:133-136 | turning scalar type hints on never removes or changes an existing hint and introduces no crash |
| ConvertPluginParams.NullablesOnlyAddMarker | src/com/magento/idea/magento2plugin/actions/generation/generator/code/util/ConvertPluginParamsToString.java:116-118 | nullable-type support changes only a nullable union's hint, and only by the `?` prefix |
| ConvertPluginParams.ArrayMarkerAlwaysHinted | src/com/magento/idea/magento2plugin/actions/generation/generator/code/util/ConvertPluginParamsToString.java:133-137 | a non-primitive single type ending in `]` is hinted `array` under every feature profile |
| ConvertPluginParams.ScalarNeedsSupport | src/com/magento/idea/magento2plugin/actions/generation/generator/code/util/ConvertPluginParamsToString.java:133-147 | a primitive other than `array` and `callable` gets no hint when scalar type hints are unsupported |
| ConvertPluginParams.HintTextWritesHint | src/com/magento/idea/magento2plugin/actions/generation/generator/code/util/ConvertPluginParamsToString.java:68-70 | a resolved hint is always written, followed by one space; no hint writes nothing |
| PluginMethodNames.PluginMethodName | src/com/magento/idea/magento2plugin/actions/generation/generator/code/PluginMethodsGenerator.java:124-127 | stated by `Capitalize`, `ParseNameRoundTrip`, `ParseNameSound`, `PluginMethodNameInjective` and `NameExamples`: the kind's name followed by the target name with its first letter upper-cased |
| PluginMethodNames.Capitalize | src/com/magento/idea/magento2plugin/actions/generation/generator/code/PluginMethodsGenerator.java:124-126 | the suffix keeps the target name's length and all characters but the first, which is upper-cased |
| PluginMethodNames.ParseNameRoundTrip | src/com/magento/idea/magento2plugin/actions/generation/generator/code/PluginMethodsGenerator.java:124-129 | a generated name parses back to its kind and the capitalised target name |
| PluginMethodNames.ParseNameSound | src/com/magento/idea/magento2plugin/actions/generation/generator/code/PluginMethodsGenerator.java:124-129 | every name the parser accepts is the generated name of its parts |
| PluginMethodNames.PluginMethodNameInjective | src/com/magento/idea/magento2plugin/actions/generation/generator/code/PluginMethodsGenerator.java:124-129 | two targets share a plugin method name only under the same kind and when their names differ at most in the case of the first letter |
| PluginMethodNames.NameExamples | src/com/magento/idea/magento2plugin/actions/generation/generator/code/PluginMethodsGenerator.java:124-129 | `save` gives `beforeSave` and `afterSave`; `execute` gives `aroundExecute` |
| PluginMethodNames.ReturnVariables | src/com/magento/idea/magento2plugin/actions/generation/generator/code/PluginMethodsGenerator.java:207-215 | return variables exist exactly for after plugins or targets with parameters, and are `$result` for every after plugin |
| PluginMethodNames.BuildReturnVariables | src/com/magento/idea/magento2plugin/actions/generation/generator/code/PluginMethodsGenerator.java:207-230 | the builder loop with its first-flag produces the declarative return variables |
| PluginMethodNames.VariablesPieces | src/com/magento/idea/magento2plugin/actions/generation/generator/code/PluginMethodsGenerator.java:216-227 | with comma-free names, the text splits at commas into one piece per parameter: `$name`, then ` $name` |
| PluginMethodNames.ReturnVariablesRoundTrip | src/com/magento/idea/magento2plugin/actions/generation/generator/code/PluginMethodsGenerator.java:207-230 | for before and around plugins the return-variables text parses back to the parameter names in order |
| PluginMethodNames.VariablesDollarCount | src/com/magento/idea/magento2plugin/actions/generation/generator/code/PluginMethodsGenerator.java:225-226 | with `$`-free names the text holds exactly one `$` per parameter |
| PluginMethodNames.ReturnVariablesExamples | src/com/magento/idea/magento2plugin/actions/generation/generator/code/PluginMethodsGenerator.java:207-230 | no parameters give no text, `a, b` give `$a, $b`, and an after plugin gives `$result` |
| DocTypeHints.IsDocTypeConvertable | src/com/magento/idea/magento2plugin/actions/generation/generator/code/PluginMethodsGenerator.java:173-181 | stated by `ConvertableCases`, `TwoWayUnionConvertable`, `ThreeWayUnionRejected`, `PlainTypeHint` and `EmptyReturnTypeConvertable` |
| DocTypeHints.TypeWithNull | src/com/magento/idea/magento2plugin/actions/generation/generator/code/PluginMethodsGenerator.java:183-186 | stated by `TwoAlternativesIffOneSeparator`, `TwoWayUnionConvertable` and `NullMentionDropsSecondSide`: two pieces after splitting, and `NULL` anywhere in the upper-cased text |
| DocTypeHints.ConvertNullableType | src/com/magento/idea/magento2plugin/actions/generation/generator/code/PluginMethodsGenerator.java:188-194 | stated by `NullUnionKeepsOtherSide` and `NullSideIrrelevant`: the side that is not `null`, after `?` exactly when nullable types are supported |
| DocTypeHints.ConvertDocTypeToHint | src/com/magento/idea/magento2plugin/actions/generation/generator/code/PluginMethodsGenerator.java:196-205 | stated by `PlainTypeHint`, `NullUnionOfMappedType`, `NullUnionKeepsOtherSide` and `NullMentionDropsSecondSide` |
| DocTypeHints.ConvertableCases | src/com/magento/idea/magento2plugin/actions/generation/generator/code/PluginMethodsGenerator.java:173-181 | a return-type text is convertible exactly when it is a non-reserved text without a union, or a two-way union mentioning null |
| DocTypeHints.TwoWayUnionConvertable | src/com/magento/idea/magento2plugin/actions/generation/generator/code/PluginMethodsGenerator.java:173-186 | a two-way union is convertible exactly when one side, upper-cased, contains `NULL` |
| DocTypeHints.TwoAlternativesIffOneSeparator | src/com/magento/idea/magento2plugin/actions/generation/generator/code/PluginMethodsGenerator.java:184-184 | the split yields two pieces exactly when one union separator remains once trailing separators are removed |
| DocTypeHints.ManyAlternativesRejected | src/com/magento/idea/magento2plugin/actions/generation/generator/code/PluginMethodsGenerator.java:173-186 | a text that splits into three or more alternatives is never convertible, whatever its alternatives mention |
| DocTypeHints.ThreeWayUnionRejected | src/com/magento/idea/magento2plugin/actions/generation/generator/code/PluginMethodsGenerator.java:183-186 | a union of three types is never convertible |
| DocTypeHints.NullUnionKeepsOtherSide | src/com/magento/idea/magento2plugin/actions/generation/generator/code/PluginMethodsGenerator.java:188-205 | a type united with `null` on either side converts to that type, with `?` exactly when nullable types are supported |
| DocTypeHints.NullUnionOfMappedType | src/com/magento/idea/magento2plugin/actions/generation/generator/code/PluginMethodsGenerator.java:196-205 | in a union with null, the `[]` to `array` and `boolean` to `bool` mappings win and get the nullable marker |
| DocTypeHints.NullSideIrrelevant | src/com/magento/idea/magento2plugin/actions/generation/generator/code/PluginMethodsGenerator.java:188-194 | `X` united with `null` converts to the same hint whichever side `null` is on |
| DocTypeHints.PlainTypeHint | src/com/magento/idea/magento2plugin/actions/generation/generator/code/PluginMethodsGenerator.java:196-205 | a text without a union is convertible unless reserved, and converts to `array`, `bool` or itself by the two mappings |
| DocTypeHints.NullMentionDropsSecondSide | src/com/magento/idea/magento2plugin/actions/generation/generator/code/PluginMethodsGenerator.java:183-194 | a second side that merely contains `NULL` in upper case makes the union nullable and is dropped |
| DocTypeHints.EmptyReturnTypeConvertable | src/com/magento/idea/magento2plugin/actions/generation/generator/code/PluginMethodsGenerator.java:173-181 | the empty return-type text is convertible and converts to itself |
| PluginAttributes.PropertyNamesDistinct | src/com/magento/idea/magento2plugin/actions/generation/generator/code/PluginMethodsGenerator.java:129-168 | the seven attributes are set under seven distinct property names, so a map keyed by attribute loses nothing |
| PluginAttributes.PluginParameters | src/com/magento/idea/magento2plugin/actions/generation/generator/code/PluginMethodsGenerator.java:135-137 | the collection holds one element more than the target has parameters |
| PluginAttributes.PluginParameterEntries | src/com/magento/idea/magento2plugin/actions/generation/generator/code/PluginMethodsGenerator.java:135-137 | the target class renders as the subject entry and each parameter as its shortened text, in declaration order |
| PluginAttributes.FillAttributes | src/com/magento/idea/magento2plugin/actions/generation/generator/code/PluginMethodsGenerator.java:118-152 | sets exactly the name, doc and list, plus the return variables when there are any, with the generated name, the given doc, the target's list and the return variables as values |
| PluginAttributes.AddTypeHintsAndReturnType | src/com/magento/idea/magento2plugin/actions/generation/generator/code/PluginMethodsGenerator.java:154-171 | keeps every other attribute; sets the scalar hint and return type to the converted text exactly when their feature holds and the text is convertible, and `void` exactly when that feature holds; an attribute whose condition fails keeps its presence and its earlier value |
| PluginAttributes.AccessMethodAttributes | src/com/magento/idea/magento2plugin/actions/generation/generator/code/PluginMethodsGenerator.java:108-116 | name, doc and list are always set; the return variables, the two type attributes and the `void` attribute are each set exactly under their conditions |
| PluginAttributes.FilledAttributeValues | src/com/magento/idea/magento2plugin/actions/generation/generator/code/PluginMethodsGenerator.java:124-149 | the name, doc, list and return-variables values of the full attribute map |
| PluginAttributes.TypeAttributeValues | src/com/magento/idea/magento2plugin/actions/generation/generator/code/PluginMethodsGenerator.java:154-169 | both type attributes hold the converted return-type text, and the `void` attribute holds `void` |
| PluginAttributes.ParamListCarriesParameters | src/com/magento/idea/magento2plugin/actions/generation/generator/code/PluginMethodsGenerator.java:135-145 | for every kind the list is the subject entry with its slot, then every parameter's shortened text in declaration order, joined by commas |
| PluginAttributes.MissingReturnTypeGivesEmptyHints | src/com/magento/idea/magento2plugin/actions/generation/generator/code/PluginMethodsGenerator.java:130-134 | with no declared return type, both type attributes are set to the empty text exactly when their features are supported |
| PluginAttributes.ReservedReturnTypeOmitted | src/com/magento/idea/magento2plugin/actions/generation/generator/code/PluginMethodsGenerator.java:173-178 | a `mixed`, `static`, `true`, `false` or `null` return type, in any case, sets neither type attribute |
| PluginAttributes.VoidAttributeIgnoresTarget | src/com/magento/idea/magento2plugin/actions/generation/generator/code/PluginMethodsGenerator.java:161-164 | the `void` attribute is the same for any two targets |
| PluginMethodPairing.CreatePluginMethods | src/com/magento/idea/magento2plugin/actions/generation/generator/code/PluginMethodsGenerator.java:90-105 | no dummy class gives no records; otherwise one record per method child, in order, with the target and the doc comment in force |
| PluginMethodPairing.MethodPositions | src/com/magento/idea/magento2plugin/actions/generation/generator/code/PluginMethodsGenerator.java:93-101 | the positions are increasing, all method children, and include every method child |
| PluginMethodPairing.LatestDocIsMostRecent | src/com/magento/idea/magento2plugin/actions/generation/generator/code/PluginMethodsGenerator.java:91-96 | the doc comment in force is the most recent one before the method, and there is none exactly when no doc comment precedes it |
| PluginMethodPairing.DocNotReset | src/com/magento/idea/magento2plugin/actions/generation/generator/code/PluginMethodsGenerator.java:91-101 | methods with no doc comment between them share the same doc comment |
| PluginMethodPairing.PairingsFollowMethods | src/com/magento/idea/magento2plugin/actions/generation/generator/code/PluginMethodsGenerator.java:97-100 | the k-th record has the target, the k-th method child's method and the doc comment in force at it |

## Left out

- `PARAM_DOC`: built by `ConvertPluginParamsToPhpDocStringUtil`, which is not part of this model. Its text is an input to the attribute functions.
- Template lookup, template expansion and dummy-class creation (`PluginMethodsGenerator.java:73-89`) are IDE calls. The dummy class enters `CreatePluginMethods` as an optional sequence of children. The attributes are modelled on their own by `AccessMethodAttributes`.
- The constructor's user-data lookup of the target class (`PluginMethodsGenerator.java:53-63`) is left out. The target class is given directly.
- The IDE's type model is left out. `PhpType.isPrimitiveType` and `PhpDocUtil.getTypePresentation` are the `Host` functions. The use-operator scope lookup is the presentation's boolean. `PhpCodeUtil.paramToString` is the parameter's text. `PhpType.global` is the class's resolved type set. Type sets are plain sets of strings with no normalisation.
- `PhpLanguageFeature.isSupported` is one `FeatureProfile`. The source asks both the plugin class's project and the element's project; the model assumes they agree.
- `scopeForUseOperator.getProject()` throws when no scope is found (`PluginMethodsGenerator.java:141`). The model assumes a scope exists.
- Case folding is ASCII-only. `toUpperCase(Locale.getDefault())`, `equalsIgnoreCase` and `StringUtil.toUpperCase` are modelled for ASCII letters; other letters are left unchanged.
- Capitalize: upper-cases only ASCII letters, where the source uses the default locale's rules.
- The collection in `ConvertPluginParamsToString.execute` is assumed to be the one `fillAttributes` builds: the target class first, then parameters. A non-parameter element at a later position is still modelled.
- Inputs on which the source throws are excluded by preconditions, not modelled as error results. These are an empty method name, a nullable union with no base hint, and a parameter text made only of backslashes.
- PluginParameters: its contract states only the length. The contents are stated by `PluginParameterEntries`.
