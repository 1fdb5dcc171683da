# Unity Protobuf serializer, modelled in Dafny

This project models the core of a Unity package that lets a `MonoBehaviour` or
`ScriptableObject` hold a Google Protocol Buffers message and edit it in the inspector.

- **Persistence** (`proto.dfy`): the `Proto<T>` wrapper. Its save hook writes the message in
  both the binary wire form and the JSON text form. Its load hook reads the binary form back
  when binary encoding is selected and parses the text form otherwise. It also falls back to
  the text form, with two console lines, when the binary form throws.
- **DrawerContext** (`drawer_context.dfy`): `ProtoDrawerContext`. This is the dotted path of
  the field being drawn, kept in a string builder. `Enter` grows the path and the section token
  it returns shrinks it again. The context also holds the foldout state cached per path over
  `EditorPrefs`, the list drawers kept per path, and the static registry of contexts per object
  key.
- **CustomDrawers** (`custom_drawers.dfy`): the user drawers. Each has five optional filters
  and a priority. They are discovered and sorted by priority, and `GetDelegate` chains every
  drawer whose filters accept a field around the default drawer.
- **PropertyPath** (`property_path.dfy`): `ReflectionUtils.MakeGetter`. It normalises a Unity
  property path, splits it on dots and matches each segment against the index pattern. It then
  builds one getter per segment over a reflected object graph, composes them and memoises the
  result per type and path.
- **ProtoDraw** (`proto_draw.dfy`): the walk over a message's fields. Consecutive fields of
  one oneof are drawn once, as the oneof. The module also covers the drawer each field is
  dispatched to, the CLR type of a fresh field value, the cast and the write of a scalar widget,
  and the edits made by the oneof checkboxes and the sub-message toggle.
- **ListDrawer** (`list_drawer.dfy`): `ProtoListDrawer`. This covers the padding of the element
  height cache, element labels, each element drawn inside `Enter(index)`, and the context
  installed while the list draws.
- **Descriptors** (`descriptors.dfy`) and **Strings** (`strings.dfy`) hold what these share:
  the protobuf field descriptor and field types, a message under edit, and .NET's
  `int.ToString`, `int.Parse`, `char.IsWhiteSpace` and case-insensitive equality.

In the code, `protoHash` is declared and never read or written, the `binary` argument of
`Proto(value, binary)` is ignored, and the save hook always writes both forms.

Exceptions are modelled as `Result` / `Outcome` values and C# `null` as `Option`. This covers
the exceptions the editor code meets at run time: `Activator.CreateInstance` on a type without a
parameterless constructor, the reflection setter given a value of another type, and the
unboxing cast in a scalar widget. The Protocol Buffers formats are an abstract `Codec`. Each
round-trip fact is assumed only where a lemma states `RoundTrips(codec)` as its precondition.

## Model

| member | source | states |
|---|---|---|
| `Persistence.BinaryFormWins` | Runtime/Proto.cs:40-45 | in binary mode a binary form that parses is the result, whatever the text form holds, and nothing is logged |
| `Persistence.FallbackToText` | Runtime/Proto.cs:46-51 | in binary mode a binary form that throws logs exactly two lines, the first the text-backup message, and then the text form decides, including its failure |
| `Persistence.TextModeIgnoresBinary` | Runtime/Proto.cs:53-56 | in text mode only the text form is read, whatever the binary form holds, and nothing is logged |
| `Persistence.SaveThenLoadRestores` | Runtime/Proto.cs:32-57 | for a codec whose two forms round-trip, loading what the save hook wrote gives the message back in either mode, with no log |
| `Persistence.Proto.Default` | Runtime/Proto.cs:25 | `Proto()` wraps the codec's new message with binary encoding selected and no persisted forms |
| `Persistence.Proto.constructor` | Runtime/Proto.cs:27-30 | `Proto(value, binary)` stores the value and ignores `binary`: binary encoding stays selected |
| `Persistence.Proto.OnBeforeSerialize` | Runtime/Proto.cs:32-36 | both persisted forms are rewritten from the current message, whatever the mode, so the forms are in step with the message |
| `Persistence.Proto.OnAfterDeserialize` | Runtime/Proto.cs:38-57 | the new message is what `Deserialize` gives for the mode and the forms; on an escaping exception the message is unchanged; the log grows by exactly the fallback lines |
| `Persistence.Proto.LoadText` | Runtime/Proto.cs:55 | the text parse sets the message, or fails with the parser's error and leaves it unchanged |
| `Persistence.SaveLoadCycle` | Runtime/Proto.cs:32-57 | a save then a load succeeds, restores the message and the forms' agreement, and keeps mode, hash and log |
| `Strings.NatToDecimal` | Editor/ProtoDrawerContext.cs:49 | the rendering of a natural number is a non-empty digit run with no leading zero |
| `Strings.IntToDecimal` | Editor/ProtoDrawerContext.cs:49 | `int.ToString()`: digits, preceded by a minus sign exactly for negative values |
| `Strings.ParseInt32Digits` | Editor/ReflectionUtils.cs:36 | `int.Parse` of a digit run succeeds exactly when the value fits a C# `int`, and then yields that value |
| `Strings.DecimalRoundTrip` | Editor/ReflectionUtils.cs:36 | parsing the decimal rendering of a number gives the number back |
| `Strings.DecimalInjective` | Editor/ProtoDrawerContext.cs:49 | distinct numbers render differently |
| `DrawerContext.SectionText` | Editor/ProtoDrawerContext.cs:37-52 | what `Enter` appends: the bare name on an empty path, a dot and the name otherwise, or `[i]` for an element |
| `DrawerContext.RemoveLast` | Editor/ProtoDrawerContext.cs:82 | `Remove(Length - k, k)` succeeds exactly when `0 <= k <= Length`, and then drops the last `k` characters |
| `DrawerContext.EnterThenRemove` | Editor/ProtoDrawerContext.cs:37-52 | removing the number of characters one section appended gives the path back exactly |
| `DrawerContext.NestedScopesRestore` | Editor/ProtoDrawerContext.cs:76-85 | any properly nested tree of `using (Enter(...))` blocks leaves the path as it found it |
| `DrawerContext.ScopeRestores` | Editor/ProtoDrawerContext.cs:76-85 | one `using` block, with any nested blocks inside, restores the path |
| `DrawerContext.Prefs.GetBool` | Editor/ProtoDrawerContext.cs:58 | the stored preference, or the default when none is stored |
| `DrawerContext.Prefs.SetBool` | Editor/ProtoDrawerContext.cs:66 | stores the value under the key and changes no other key |
| `DrawerContext.ProtoDrawerContext.constructor` | Editor/ProtoDrawerContext.cs:25-30 | the path starts as the key, the caches are empty, and the cache maps the key to the new context |
| `DrawerContext.ProtoDrawerContext.NotifyPathChanged` | Editor/ProtoDrawerContext.cs:32-35 | both the cached path and the cached foldout are cleared |
| `DrawerContext.ProtoDrawerContext.Enter` | Editor/ProtoDrawerContext.cs:37-44 | appends the field name after a dot unless the path is empty, clears the caches, and returns the exact number of characters appended |
| `DrawerContext.ProtoDrawerContext.EnterElement` | Editor/ProtoDrawerContext.cs:46-52 | appends `[i]` in decimal, clears the caches, and returns the number of characters appended |
| `DrawerContext.ProtoDrawerContext.FullPath` | Editor/ProtoDrawerContext.cs:16-23 | the result is the builder's text, and it stays cached |
| `DrawerContext.ProtoDrawerContext.GetFoldout` | Editor/ProtoDrawerContext.cs:56-60 | the cached foldout, or else the preference stored under the full path (default false), which is then cached |
| `DrawerContext.ProtoDrawerContext.SetFoldout` | Editor/ProtoDrawerContext.cs:62-67 | setting the cached value again is a no-op; any other value is cached and stored under the full path |
| `DrawerContext.ProtoDrawerContext.GetCurrentList` | Editor/ProtoDrawerContext.cs:72 | the list drawer stored under the current path, or none |
| `DrawerContext.ProtoDrawerContext.SetCurrentList` | Editor/ProtoDrawerContext.cs:73 | stores the drawer under the current path and leaves the other paths alone |
| `DrawerContext.Dispose` | Editor/ProtoDrawerContext.cs:80-84 | truncates by the section length and clears the caches, or, when `Remove` throws, changes nothing |
| `DrawerContext.EnterDispose` | Editor/ProtoDrawerContext.cs:37-84 | entering any section and disposing its token never throws and restores the path |
| `DrawerContext.ContextCache.constructor` | Editor/ProtoDrawerContext.cs:88 | the registry starts empty |
| `DrawerContext.ContextCache.FromCache` | Editor/ProtoDrawerContext.cs:103-106 | a registered key returns its context and changes nothing; otherwise a fresh context starting at the key is registered under it |
| `DrawerContext.ContextCache.FromCacheForObject` | Editor/ProtoDrawerContext.cs:95-101 | the key is the object id, followed by `.name` exactly when a property name is given; the rest is as for `FromCache` |
| `CustomDrawers.SkippedIffSomeFilterDiffers` | Editor/CustomProtoDrawer.cs:26-33 | a drawer is skipped exactly when one of its non-null filters disagrees with the field: the class and type filters by equality, the name filter when its lower-case form differs from that of both the field name and the JSON name |
| `CustomDrawers.UnfilteredMatchesEverything` | Editor/CustomProtoDrawer.cs:12-16 | a drawer whose filters are all null applies to every field |
| `CustomDrawers.NameFilterIgnoresCase` | Editor/CustomProtoDrawer.cs:31-33 | for every filter and field, the name filter accepts exactly when the filter and the field name, or the filter and the JSON name, are equal after lower-casing |
| `Strings.EqualsIgnoreCaseLower` | Editor/CustomProtoDrawer.cs:31-33 | two strings are equal ignoring case exactly when their lower-case forms are equal |
| `CustomDrawers.Matching` | Editor/CustomProtoDrawer.cs:24-34 | every drawer kept comes from the registry and applies to the field |
| `CustomDrawers.MatchingComplete` | Editor/CustomProtoDrawer.cs:24-34 | every drawer of the registry that applies to the field is kept |
| `CustomDrawers.WrapAllLayers` | Editor/CustomProtoDrawer.cs:35-37 | wrapping the default drawer in a list of drawers gives exactly those layers in list order, around the default drawer |
| `CustomDrawers.ChainOfDefaultDrawer` | Editor/CustomProtoDrawer.cs:22-41 | the chain built for a field has the matching drawers as layers, the last match outermost, and is the default drawer when nothing matches |
| `CustomDrawers.InsertPermutes` | Editor/CustomProtoDrawer.cs:65 | inserting adds exactly the new drawer |
| `CustomDrawers.InsertKeepsSorted` | Editor/CustomProtoDrawer.cs:63-67 | inserting into a list sorted by priority keeps it sorted |
| `CustomDrawers.InsertStable` | Editor/CustomProtoDrawer.cs:57 | the new drawer lands after every drawer of its priority, and the other drawers of each priority keep their order |
| `CustomDrawers.OrderByPrioritySorted` | Editor/CustomProtoDrawer.cs:57 | the initial list is sorted by ascending priority |
| `CustomDrawers.OrderByPriorityStable` | Editor/CustomProtoDrawer.cs:57 | drawers of equal priority keep their discovery order |
| `CustomDrawers.OrderByPriorityPermutes` | Editor/CustomProtoDrawer.cs:49-58 | the initial list holds exactly the discovered drawers |
| `CustomDrawers.InsertByPriority` | Editor/CustomProtoDrawer.cs:65 | inserting one drawer makes the list one longer; its placement is stated by `InsertPosition` |
| `CustomDrawers.InsertPosition` | Editor/CustomProtoDrawer.cs:65 | the new drawer is inserted at a position with every drawer before it of no greater priority and the drawer after it of strictly greater priority, the rest in their old order |
| `CustomDrawers.OrderByPriority` | Editor/CustomProtoDrawer.cs:57 | ordering keeps the number of drawers; order and contents are stated by the lemmas above |
| `CustomDrawers.DrawerRegistry.constructor` | Editor/CustomProtoDrawer.cs:45-59 | the registry is the discovered drawers in stable priority order: sorted, and a permutation of them |
| `CustomDrawers.DrawerRegistry.GetDelegate` | Editor/CustomProtoDrawer.cs:22-41 | the loop yields the default drawer wrapped in each matching drawer in registry order |
| `CustomDrawers.DrawerRegistry.Register` | Editor/CustomProtoDrawer.cs:63-67 | the registry stays sorted by priority and gains exactly the new drawer |
| `PropertyPath.NormaliseDotFree` | Editor/ReflectionUtils.cs:21 | a path without dots is unchanged by the replacement |
| `PropertyPath.NormaliseArrayElement` | Editor/ReflectionUtils.cs:21 | after a field name, `.Array.data[` becomes `[` |
| `PropertyPath.Split` | Editor/ReflectionUtils.cs:28 | `Split` gives at least one piece, and no piece holds the separator |
| `PropertyPath.JoinSplit` | Editor/ReflectionUtils.cs:28 | joining the pieces with the separator gives the path back |
| `PropertyPath.SplitWithout` | Editor/ReflectionUtils.cs:28 | a text without the separator splits into itself alone |
| `PropertyPath.MatchIndex` | Editor/ReflectionUtils.cs:11 | a match yields a non-empty name without white space or `[`, and a non-empty digit run |
| `PropertyPath.MatchIndexSound` | Editor/ReflectionUtils.cs:11 | a match means the segment starts with name, `[`, digits, `]` |
| `PropertyPath.MatchIndexComplete` | Editor/ReflectionUtils.cs:11 | every segment of that shape matches, with exactly those groups |
| `PropertyPath.ComposeReadsInOrder` | Editor/ReflectionUtils.cs:44-46 | the composed getter applies the segments' getters left to right, the first exception escaping |
| `PropertyPath.ApplyAccessor` | Editor/ReflectionUtils.cs:53-66 | a field getter reads the field; an element getter reads the field and succeeds exactly when it holds a list and the index is in range, yielding that item; a missing field propagates its exception |
| `PropertyPath.MakeFieldGetter` | Editor/ReflectionUtils.cs:53-58 | a getter is built exactly when the type declares the field, for that field and with the field's type; otherwise `GetField` returns null and the access throws `NullReferenceException` |
| `PropertyPath.FieldGetterReadsField` | Editor/ReflectionUtils.cs:53-58 | the built field getter returns the field's value on any object |
| `PropertyPath.MakeIndexGetterAsWritten` | Editor/ReflectionUtils.cs:60-66 | as written, every indexed segment throws: `InvalidCastException` when the field exists, `NullReferenceException` when it does not |
| `PropertyPath.MakeIndexGetter` | Editor/ReflectionUtils.cs:60-66 | with the corrected cast, a getter is built exactly when the field exists and its type has a generic argument, which becomes the element type; otherwise the matching exception |
| `PropertyPath.IndexGetterReadsElement` | Editor/ReflectionUtils.cs:60-66 | the built element getter on a list value returns item `index`, or throws `ArgumentOutOfRangeException` outside the list |
| `PropertyPath.Tag` | Editor/ReflectionUtils.cs:23-24 | the cache tag is the type's full name, a colon, then the normalised path |
| `PropertyPath.TagInjective` | Editor/ReflectionUtils.cs:23-26 | for type names without a colon, equal tags mean the same type name and the same path, so the cache never confuses two entries |
| `PropertyPath.PlanLength` | Editor/ReflectionUtils.cs:28-47 | a successful walk makes one getter per segment |
| `PropertyPath.NormaliseElementPath` | Editor/ReflectionUtils.cs:21-28 | `name.Array.data[i]` normalises to `name[i]`, which is a single segment |
| `PropertyPath.ElementSegment` | Editor/ReflectionUtils.cs:30-37 | the segment `name[i]` matches with the index read back as `i` |
| `PropertyPath.ArrayElementPath` | Editor/ReflectionUtils.cs:60-66 | with the corrected index getter, `name.Array.data[i]` builds a single element getter that reads item `i` of the list |
| `PropertyPath.ArrayElementPathAsWritten` | Editor/ReflectionUtils.cs:62 | as written, that segment fails with `InvalidCastException` whenever the field exists |
| `PropertyPath.GetterCache.MakeGetter` | Editor/ReflectionUtils.cs:16-51 | a null target fails before the cache is read; a cached tag is returned as is; otherwise the segment loop, with the corrected index getter, builds the getter an independent walk defines; only a success is cached |
| `ProtoDraw.Dispatch` | Editor/ProtoDraw.cs:54-72 | each drawer is chosen exactly when the earlier tests fail and its own test holds: oneof, then map, repeated, message, scalar |
| `ProtoDraw.GetFieldType` | Editor/ProtoDraw.cs:127-165 | the type lookup throws `NotSupportedException` exactly for repeated fields, maps and groups |
| `ProtoDraw.CreateInstance` | Editor/ProtoDraw.cs:121-125 | succeeds exactly when the type lookup does and the type is neither `string` nor `byte[]`, with a default value of that type; a lookup failure propagates and the two types without a parameterless constructor throw `MissingMethodException` |
| `ProtoDraw.SetValue` | Editor/ProtoDraw.cs:94-95 | the reflection setter throws `InvalidCastException` on a value that is not of the generated property's type |
| `ProtoDraw.FreshValueOutcome` | Editor/ProtoDraw.cs:186-188 | storing a fresh instance in a singular field succeeds exactly for double, float, int64, sint64, uint64, int32, sint32, uint32, bool, message and enum fields, with a value of the property's type; string and bytes throw `MissingMethodException`, the fixed-width integers `InvalidCastException`, groups `NotSupportedException` |
| `ProtoDraw.SubMessageCreatable` | Editor/ProtoDraw.cs:92-96 | a singular sub-message field is always set to a fresh instance of its message type |
| `ProtoDraw.WidgetType` | Editor/ProtoDraw.cs:225-270 | the widget's type argument: none exactly for messages, bytes and groups, and `System.Enum` exactly for enums |
| `ProtoDraw.WidgetCastFailsExactly` | Editor/ProtoDraw.cs:272-278 | the widget's `(T)getter()` cast throws exactly for uint32, uint64, fixed32, fixed64, sfixed32 and sfixed64 fields |
| `ProtoDraw.Heads` | Editor/ProtoDraw.cs:27-49 | the entry positions lie within the field list and are strictly increasing |
| `ProtoDraw.HeadsExactly` | Editor/ProtoDraw.cs:31-42 | a field opens an entry exactly when it is not in the same oneof as the field before it |
| `ProtoDraw.PlainFieldsAllDrawn` | Editor/ProtoDraw.cs:34-43 | every field outside a oneof is drawn |
| `ProtoDraw.OneofRunCollapses` | Editor/ProtoDraw.cs:33-40 | a run of consecutive fields of one oneof is drawn once, at its first field |
| `ProtoDraw.DrawProto` | Editor/ProtoDraw.cs:16-52 | a closed header draws nothing; otherwise one visit per entry, in order, under the right path, drawer chain and dispatch; the path is restored; the header writes its answer to the preferences exactly when it differs from the foldout read, and the foldout cache ends as the header left it, or cleared once an entry was drawn |
| `ProtoDraw.DrawEntries` | Editor/ProtoDraw.cs:27-49 | the loop makes exactly the visits of the entry positions, restores the path, and clears the foldout cache when it drew anything |
| `ProtoDraw.EntryVisitsAt` | Editor/ProtoDraw.cs:27-49 | the visits of a field list are one per entry position, each for the field at that position |
| `ProtoDraw.DrawEntry` | Editor/ProtoDraw.cs:43-48 | a visit is drawn under the path extended by the entry name, the path is restored afterwards, and the foldout cache is cleared |
| `ProtoDraw.DrawScalarField` | Editor/ProtoDraw.cs:225-278 | a scalar field as `DrawField` draws it: bytes and groups change nothing; the widget's cast throws for the width-mismatched integers and writes nothing; a widget answer equal to the value read writes nothing; a different answer of the property's type becomes the field's value, and one of another type makes the setter throw |
| `ProtoDraw.ToggleCase` | Editor/ProtoDraw.cs:180-189 | a box throws exactly when it newly checks a field whose fresh instance cannot be created or stored; otherwise a checked box selects its field and an unchecked box of another field leaves the selection |
| `ProtoDraw.LastCheckedCaseWins` | Editor/ProtoDraw.cs:178-195 | with distinct field numbers, a run that throws nothing ends on the last checked case |
| `ProtoDraw.UncheckedKeepOther` | Editor/ProtoDraw.cs:185-190 | unchecked boxes of other fields leave a selected case alone and throw nothing |
| `ProtoDraw.UnchangedBoxesKeepCase` | Editor/ProtoDraw.cs:185-193 | boxes that show the current selection keep it; the run throws exactly when a checked case's widget cannot read its value |
| `ProtoDraw.UncheckingClears` | Editor/ProtoDraw.cs:185-187 | unchecking the selected case, with no box checked, empties the oneof |
| `ProtoDraw.NoneStaysNone` | Editor/ProtoDraw.cs:185-190 | with no box checked an empty oneof stays empty |
| `ProtoDraw.ToggleOneofCase` | Editor/ProtoDraw.cs:180-189 | one checkbox edits the message as `ToggleCase` says; a failed creation or store leaves the oneof cleared |
| `ProtoDraw.DrawProtoOneOf` | Editor/ProtoDraw.cs:167-198 | a closed foldout changes nothing; otherwise the oneof ends as the boxes in order determine it, an exception from a box or from a checked case's widget cast escapes, and a run without one draws exactly the checked cases |
| `ProtoDraw.ToggleSubMessage` | Editor/ProtoDraw.cs:86-96 | unchecking a set sub-message clears it; checking an absent one stores a fresh instance, or throws and changes nothing; otherwise nothing changes; on success the field is set exactly when the box is checked |
| `ListDrawer.PadOnceBounds` | Editor/ProtoListDrawer.cs:42 | one padding call never overshoots the list and, while the cache is short, appends at least one height |
| `ListDrawer.PaddedCount` | Editor/ProtoListDrawer.cs:42 | the number of heights one call appends is exactly where its loop condition, which shrinks as the cache grows, first fails |
| `ListDrawer.AscendingCallsInRange` | Editor/ProtoListDrawer.cs:40-44 | after `k` calls the cache covers `k` more elements or the whole list, and never more than the list |
| `ListDrawer.FirstNamed` | Editor/ProtoListDrawer.cs:69 | the first field whose name is `name` without case, or none when no field is |
| `ListDrawer.NameValue` | Editor/ProtoListDrawer.cs:67-70 | a message element has a display name exactly when its first `name` field holds a string, and the name is that string |
| `ListDrawer.ElementLabel` | Editor/ProtoListDrawer.cs:76-79 | every label starts with `field[i]` |
| `ListDrawer.LabelSuffix` | Editor/ProtoListDrawer.cs:76-79 | the label is `field[i]`, followed by `: name` exactly for a message element whose name is not blank |
| `ListDrawer.IntDecimalInjective` | Editor/ProtoListDrawer.cs:78 | distinct indices render differently |
| `ListDrawer.DistinctIndicesDistinctLabels` | Editor/ProtoListDrawer.cs:76-79 | two elements of one list never share a label, whatever their names |
| `ListDrawer.UndrawnKeepsHeight` | Editor/ProtoListDrawer.cs:97 | an element the list does not draw keeps its cached height |
| `ListDrawer.LastDrawWins` | Editor/ProtoListDrawer.cs:97 | the last draw of an element decides its cached height |
| `ListDrawer.ProtoListDrawer.constructor` | Editor/ProtoListDrawer.cs:22-38 | a new drawer has an empty height cache and no context |
| `ListDrawer.ProtoListDrawer.GetElementHeight` | Editor/ProtoListDrawer.cs:40-44 | the loop appends `PaddedCount` single-line heights and keeps the old ones, then returns the height or fails past the end |
| `ListDrawer.ProtoListDrawer.DrawListElement` | Editor/ProtoListDrawer.cs:53-100 | under `Enter(index)`: the label, a change flag raised exactly when the height differs, and the new height cached; reading past the list, the widget's cast on a uint32, uint64 or fixed-width element, or reading past the cache fails with that exception and changes nothing; the path is restored |
| `ListDrawer.ProtoListDrawer.Draw` | Editor/ProtoListDrawer.cs:46-51 | succeeds exactly when every drawn element is drawable, caching the heights in draw order and clearing the context; on failure the first element that is not drawable throws, the heights before it are cached, and the context stays installed |
| `ListDrawer.ProtoListDrawer.DoList` | Editor/ProtoListDrawer.cs:53-100 | drawing the elements in order succeeds exactly when each is drawable, caching their heights; otherwise it stops at the first that is not, with its exception and the heights before it |
| `ListDrawer.ProtoListDrawer.DoListStep` | Editor/ProtoListDrawer.cs:53-100 | one element of the list draw: it throws the exception `DrawFailure` names and caches nothing, or it is drawable and its height is cached over those of the elements before it |

## Left out

- IMGUI drawing is not modelled: rectangles, heights, indentation, labels made by
  `NicifyVariableName`, `DisabledScope` and `CanEditElements`. A drawn element's height and
  each widget's return value are inputs.
- The Protocol Buffers wire format and the proto3 JSON mapping are an abstract `Codec`. The
  formats themselves belong to Google.Protobuf.
- .NET reflection is a tree of type descriptions (`TypeInfo`) and a tree of values (`Obj`).
  Private and public fields are not told apart.
- `EditorPrefs` is the `Prefs` map, and `GlobalObjectId` is an opaque string the caller
  supplies.
- The AppDomain scan in the static constructor is not modelled: the discovered drawers are its
  input.
- `Priority` is a float in the source. The model uses an integer, because the source only
  compares priorities.
- `Register`: the model inserts by priority, which is one admissible result. `List.Sort` is not
  stable, so the contract only promises sorted order and a permutation.
- `InvariantCultureIgnoreCase` and `OrdinalIgnoreCase` are modelled as folding ASCII letters
  only.
- `DrawProtoMap` only draws a placeholder label, so it is a dispatch target and nothing more.
- `DrawProtoOneOf` models the drawing of a selected case only as far as its widget's cast. The
  write-back of an edited case, which `DrawScalarField` models for a plain scalar field, and
  the nested drawing of a message case are not modelled. It returns the cases drawn, and
  `NestedScopesRestore` covers the `Enter` scopes around them.
- The CLR type of each generated message property (`Descriptors.PropertyType`) follows the
  Google.Protobuf C# code generator, which is not part of this model: fixed32 and uint32 are
  `uint`, sfixed32 `int`, fixed64 and uint64 `ulong`, sfixed64 `long`, bytes `ByteString`.
- `PropertyPath.GetterCache.MakeGetter` builds index getters with the corrected cast; as written
  no path into a list element yields a getter (see Findings).
- `DrawListElement` does not model the nested drawing of a message element: `DrawProto` on the
  element, the exceptions it can raise (a widget cast on a field inside the element) and the
  preferences it writes. It also does not model the write-back `list[index] = v` of an edited
  scalar element. Its success and failure clauses cover the list drawer's own reads and the
  element's own widget cast.
- `Draw` inherits that gap: an element whose nested drawing throws counts as drawable, so its
  success clause can promise more than the source delivers for a list of messages.
- `DoList` inherits the same gap, element by element.
- `DrawProto` does not draw its visits: the foldouts, toggles and widget writes of the nested
  entries, and their exceptions, are not modelled. Its clauses on `prefs.store` and
  `ctx.foldout` describe what the header does, with entries that write nothing.
- `DrawProtoFieldRepeated` creating and caching the list drawer is covered only by
  `GetCurrentList` and `SetCurrentList`. `SetCurrentList(null)` is not modelled.
- `ReorderableList.DoList` is modelled only as the loop over the elements it draws; which
  elements it draws, and in what order, are an input to `Draw`. Its own calls to
  `GetElementHeight` are separate calls to that method.
- `ProtoPropertyDrawer.cs` and `LinkXmlInstaller.cs` are not part of this model.
- A `null` `Value` is not modelled, because every message in the model exists.
- The `IProto` interface and `CustomProtoDrawerAttribute` are not modelled. They only forward
  or declare data.

## Findings

| source | as written | input that shows it | evidently intended | confidence | as-written member | corrected member |
|---|---|---|---|---|---|---|
| Editor/ReflectionUtils.cs:62 | the field getter, a `Func<object, object>`, is cast to `Func<object, IList>`; delegate variance only widens a result type, so the cast throws `InvalidCastException` | any path into a list element, e.g. `items.Array.data[0]` on an object with a `List<int> items` field | cast the field's value to `IList` inside the getter and index it | not executed | `PropertyPath.ArrayElementPathAsWritten` | `PropertyPath.ArrayElementPath` |
