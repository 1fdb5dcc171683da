/** `ProtoDraw`: the inspector's walk over a message's fields, the choice of drawer per field,
    the CLR type of a fresh field value, and the edits the oneof and sub-message toggles make. */
module ProtoDraw {
  import opened Wrappers
  import opened Descriptors
  import opened CustomDrawers
  import opened DrawerContext

  // ---------------------------------------------------------------- DrawField dispatch

  /** The drawer `DrawField` hands a field to. */
  datatype DrawKind = OneOfDrawer | MapDrawer | RepeatedDrawer | MessageDrawer | ScalarDrawer

  /** `DrawField`: a oneof entry first, then maps, repeated fields, sub-messages, and scalars last. */
  function Dispatch(field: FieldDescriptor, currentOneOf: Option<string>): (k: DrawKind)
    ensures k == OneOfDrawer <==> currentOneOf.Some?
    ensures k == MapDrawer <==> currentOneOf.None? && field.isMap
    ensures k == RepeatedDrawer <==> currentOneOf.None? && !field.isMap && field.isRepeated
    ensures k == MessageDrawer <==> currentOneOf.None? && !field.isMap && !field.isRepeated && field.fieldType == Message
    ensures k == ScalarDrawer <==> currentOneOf.None? && !field.isMap && !field.isRepeated && field.fieldType != Message
  {
    if currentOneOf.Some? then OneOfDrawer
    else if field.isMap then MapDrawer
    else if field.isRepeated then RepeatedDrawer
    else if field.fieldType == Message then MessageDrawer
    else ScalarDrawer
  }

  // ---------------------------------------------------------------- GetFieldType

  /** The exceptions of creating and storing a fresh value: `NotSupportedException` from
      `GetFieldType`, `MissingMethodException` from `Activator.CreateInstance` on a type without a
      parameterless constructor, and `InvalidCastException` when a value is unboxed at another
      type. */
  datatype FieldTypeError = NotSupported | MissingMethod | InvalidCast

  /** `GetFieldType`: the CLR type `CreateInstance` instantiates for a field. */
  function GetFieldType(field: FieldDescriptor): (r: Result<ClrType, FieldTypeError>)
    ensures r.Failure? <==> field.isRepeated || field.isMap || field.fieldType == Group
    ensures r.Failure? ==> r.error == NotSupported
  {
    if field.isRepeated || field.isMap then Failure(NotSupported)
    else
      match field.fieldType
      case Fixed32 => Success(FloatType)
      case SFixed32 => Success(FloatType)
      case Float => Success(FloatType)
      case Double => Success(DoubleType)
      case Fixed64 => Success(DoubleType)
      case SFixed64 => Success(DoubleType)
      case Int64 => Success(LongType)
      case SInt64 => Success(LongType)
      case UInt64 => Success(ULongType)
      case SInt32 => Success(IntType)
      case Int32 => Success(IntType)
      case UInt32 => Success(UIntType)
      case Bool => Success(BoolType)
      case String => Success(StringType)
      case Group => Failure(NotSupported)
      case Message => Success(MessageClr(field.messageClrType))
      case Bytes => Success(BytesType)
      case Enum => Success(EnumClr(field.enumClrType))
  }

  /** `CreateInstance`: `Activator.CreateInstance` of the type `GetFieldType` picks. Value types,
      enums and generated messages have a parameterless constructor; `string` and `byte[]` do not,
      so for string and bytes fields the call throws. */
  function CreateInstance(field: FieldDescriptor): (r: Result<FieldValue, FieldTypeError>)
    ensures r.Success? <==> GetFieldType(field).Success? && field.fieldType != String && field.fieldType != Bytes
    ensures r.Success? ==> r.value == Fresh(GetFieldType(field).value)
    ensures GetFieldType(field).Failure? ==> r == Failure(GetFieldType(field).error)
    ensures GetFieldType(field).Success? && r.Failure? ==> r.error == MissingMethod
  {
    match GetFieldType(field)
    case Failure(e) => Failure(e)
    case Success(t) =>
      if t == StringType || t == BytesType then Failure(MissingMethod) else Success(Fresh(t))
  }

  /** `field.Accessor.SetValue(message, value)` on a singular field: the reflection setter unboxes
      the value at the property's type, which throws unless the value has exactly that type. */
  function SetValue(field: FieldDescriptor, value: FieldValue): (r: Outcome<FieldTypeError>)
    ensures r.Fail? ==> r.error == InvalidCast
  {
    if value.clrType == PropertyType(field) then Pass else Fail(InvalidCast)
  }

  /** `field.Accessor.SetValue(message, CreateInstance(field))`: the value stored, or the first
      exception. */
  function FreshValue(field: FieldDescriptor): Result<FieldValue, FieldTypeError> {
    match CreateInstance(field)
    case Failure(e) => Failure(e)
    case Success(v) => if SetValue(field, v).Pass? then Success(v) else Failure(InvalidCast)
  }

  /** Setting a singular field to a fresh instance succeeds only where the created type is the
      generated property's type: string and bytes fields have no parameterless constructor, the
      fixed-width integers are created as `float`/`double` but declared as integers, and groups
      are not supported. */
  lemma FreshValueOutcome(field: FieldDescriptor)
    requires !field.isRepeated && !field.isMap
    ensures FreshValue(field).Success? <==>
      field.fieldType in {Double, Float, Int64, SInt64, UInt64, Int32, SInt32, UInt32, Bool, Message, Enum}
    ensures FreshValue(field).Success? ==> FreshValue(field).value.clrType == PropertyType(field)
    ensures field.fieldType in {String, Bytes} ==> FreshValue(field) == Failure(MissingMethod)
    ensures field.fieldType in {Fixed32, SFixed32, Fixed64, SFixed64} ==> FreshValue(field) == Failure(InvalidCast)
    ensures field.fieldType == Group ==> FreshValue(field) == Failure(NotSupported)
  {
  }

  /** The type argument `T` of the `DrawProtoField<T>` call `DrawProtoField` picks for a field
      type; none for sub-messages (drawn recursively) and for bytes and groups (a label). */
  function WidgetType(t: FieldType): (r: Option<ClrType>)
    ensures r.None? <==> t in {Message, Bytes, Group}
    ensures r == Some(SystemEnum) <==> t == Enum
  {
    match t
    case SFixed64 => Some(DoubleType)
    case Fixed64 => Some(DoubleType)
    case Double => Some(DoubleType)
    case SFixed32 => Some(FloatType)
    case Fixed32 => Some(FloatType)
    case Float => Some(FloatType)
    case UInt64 => Some(LongType)
    case SInt64 => Some(LongType)
    case Int64 => Some(LongType)
    case SInt32 => Some(IntType)
    case UInt32 => Some(IntType)
    case Int32 => Some(IntType)
    case Bool => Some(BoolType)
    case String => Some(StringType)
    case Enum => Some(SystemEnum)
    case Message => None
    case Bytes => None
    case Group => None
  }

  /** Whether `(T)getter()` in `DrawProtoField<T>` succeeds on a value of the field: unboxing
      needs the exact type, while any enum converts to `System.Enum`. The widgets that read no
      value (sub-messages use `as`, bytes and groups show a label) cannot fail. */
  predicate WidgetReads(field: FieldDescriptor) {
    match WidgetType(field.fieldType)
    case None => true
    case Some(w) => if w == SystemEnum then PropertyType(field).EnumClr? else w == PropertyType(field)
  }

  /** The integer field types whose values the generated code declares at a type other than the
      one their widget reads. */
  predicate WidthMismatch(t: FieldType) {
    t == UInt32 || t == UInt64 || t == Fixed32 || t == Fixed64 || t == SFixed32 || t == SFixed64
  }

  /** The widget's cast throws exactly for the unsigned and the fixed-width integer fields, whose
      values do not have the widget's type. */
  lemma WidgetCastFailsExactly(field: FieldDescriptor)
    ensures !WidgetReads(field) <==> WidthMismatch(field.fieldType)
  {
  }

  // ---------------------------------------------------------------- the DrawProto field walk

  /** Field `i` opens an entry unless it belongs to the same oneof as the field before it. */
  predicate Starts(fields: seq<FieldDescriptor>, i: nat)
    requires i < |fields|
  {
    !(fields[i].containingOneof.Some? && i > 0 && fields[i - 1].containingOneof == fields[i].containingOneof)
  }

  /** The positions of the fields that open an entry, in declaration order. */
  function Heads(fields: seq<FieldDescriptor>): (hs: seq<nat>)
    ensures forall k :: 0 <= k < |hs| ==> hs[k] < |fields|
    ensures forall k, l :: 0 <= k < l < |hs| ==> hs[k] < hs[l]
  {
    if fields == [] then []
    else
      var init := fields[..|fields| - 1];
      Heads(init) + (if Starts(fields, |fields| - 1) then [|fields| - 1] else [])
  }

  lemma StartsPrefix(fields: seq<FieldDescriptor>, n: nat, i: nat)
    requires i < n <= |fields|
    ensures Starts(fields[..n], i) == Starts(fields, i)
  {
  }

  /** A field opens an entry exactly when it is not in the same oneof as its predecessor. */
  lemma {:induction false} HeadsExactly(fields: seq<FieldDescriptor>, i: nat)
    ensures i in Heads(fields) <==> i < |fields| && Starts(fields, i)
  {
    if fields != [] {
      var n := |fields| - 1;
      var init := fields[..n];
      var tail := if Starts(fields, n) then [n] else [];
      assert Heads(fields) == Heads(init) + tail;
      assert i in Heads(fields) <==> i in Heads(init) || i in tail;
      HeadsExactly(init, i);
      if i < n {
        StartsPrefix(fields, n, i);
      }
    }
  }

  /** Every field outside a oneof opens an entry of its own. */
  lemma PlainFieldsAllDrawn(fields: seq<FieldDescriptor>, i: nat)
    requires i < |fields| && fields[i].containingOneof.None?
    ensures i in Heads(fields)
  {
    HeadsExactly(fields, i);
  }

  /** A run of consecutive fields of one oneof opens exactly one entry, at its first field. */
  lemma OneofRunCollapses(fields: seq<FieldDescriptor>, a: nat, b: nat, o: string)
    requires a <= b < |fields|
    requires forall j :: a <= j <= b ==> fields[j].containingOneof == Some(o)
    requires a == 0 || fields[a - 1].containingOneof != Some(o)
    ensures a in Heads(fields)
    ensures forall j :: a < j <= b ==> j !in Heads(fields)
  {
    HeadsExactly(fields, a);
    forall j | a < j <= b ensures j !in Heads(fields) {
      HeadsExactly(fields, j);
    }
  }

  /** The name an entry is entered under: the oneof's name, or the field's own. */
  function EntryName(field: FieldDescriptor): string {
    if field.containingOneof.Some? then field.containingOneof.value else field.name
  }

  /** What `DrawProto` does for one entry: the path it is drawn under, the field and oneof passed
      to the drawer, the drawer chain `GetDelegate` built for it, and where `DrawField` sends it. */
  datatype Visit = Visit(path: string, field: FieldDescriptor, oneof: Option<string>, drawer: DrawDelegate, kind: DrawKind)

  function VisitFor(path: string, field: FieldDescriptor, drawers: seq<CustomProtoDrawer>, containingType: string, fieldName: Option<string>): Visit {
    Visit(path + SectionText(path, Field(EntryName(field))), field, field.containingOneof,
          WrapAll(DrawFieldBase, Matching(drawers, containingType, fieldName, field)),
          Dispatch(field, field.containingOneof))
  }

  /** `DrawProto`: the optional header foldout (`headerAnswer` is what the widget returns), then
      one visit per entry in declaration order, each inside `context.Enter(name)`; the path is the
      same afterwards. The drawing a visit does is not modelled. */
  method DrawProto<L>(ctx: ProtoDrawerContext<L>, prefs: Prefs, registry: DrawerRegistry, fields: seq<FieldDescriptor>,
                      drawHeader: bool, headerAnswer: bool)
    returns (visits: seq<Visit>)
    requires ctx.Valid()
    modifies ctx`builder, ctx`fullPath, ctx`foldout, prefs
    ensures ctx.Valid() && ctx.builder == old(ctx.builder)
    ensures drawHeader && !headerAnswer ==> visits == []
    ensures !drawHeader || headerAnswer ==>
      && |visits| == |Heads(fields)|
      && forall k :: 0 <= k < |visits| ==>
           visits[k] == VisitFor(old(ctx.builder), fields[Heads(fields)[k]], registry.Drawers, ctx.ContainingType, ctx.SerializedFieldName)
    // the header reads the foldout (from the preferences unless cached) and writes the widget's
    // answer back, which reaches the preferences only when it differs from what was read
    ensures !drawHeader ==> prefs.store == old(prefs.store)
    ensures drawHeader ==>
      var before := if old(ctx.foldout).Some? then old(ctx.foldout).value else old(prefs.GetBool(ctx.builder, false));
      prefs.store == if before == headerAnswer then old(prefs.store) else old(prefs.store)[old(ctx.builder) := headerAnswer]
    // a closed header keeps its answer cached; each entry drawn clears the cache on leaving
    ensures drawHeader && !headerAnswer ==> ctx.foldout == Some(false)
    ensures (!drawHeader || headerAnswer) && |Heads(fields)| > 0 ==> ctx.foldout == None
    ensures (!drawHeader || headerAnswer) && |Heads(fields)| == 0 ==>
      ctx.foldout == if drawHeader then Some(headerAnswer) else old(ctx.foldout)
  {
    visits := [];
    if drawHeader {
      var _ := ctx.GetFoldout(prefs);
      ctx.SetFoldout(prefs, headerAnswer);
      var shown := ctx.GetFoldout(prefs);
      if !shown {
        return;
      }
    }
    visits := DrawEntries(ctx, registry, fields);
  }

  /** The visits of the entry positions, in order. */
  function EntryVisits(path: string, fields: seq<FieldDescriptor>, drawers: seq<CustomProtoDrawer>, containingType: string, fieldName: Option<string>)
    : seq<Visit>
  {
    if fields == [] then []
    else
      var n := |fields| - 1;
      EntryVisits(path, fields[..n], drawers, containingType, fieldName)
        + (if Starts(fields, n) then [VisitFor(path, fields[n], drawers, containingType, fieldName)] else [])
  }

  /** The visits are one per entry position, each for the field there. */
  lemma {:induction false} EntryVisitsAt(path: string, fields: seq<FieldDescriptor>, drawers: seq<CustomProtoDrawer>, containingType: string, fieldName: Option<string>)
    ensures |EntryVisits(path, fields, drawers, containingType, fieldName)| == |Heads(fields)|
    ensures forall k :: 0 <= k < |Heads(fields)| ==>
      EntryVisits(path, fields, drawers, containingType, fieldName)[k] == VisitFor(path, fields[Heads(fields)[k]], drawers, containingType, fieldName)
  {
    if fields != [] {
      var n := |fields| - 1;
      EntryVisitsAt(path, fields[..n], drawers, containingType, fieldName);
      forall k | 0 <= k < |Heads(fields[..n])| ensures fields[..n][Heads(fields[..n])[k]] == fields[Heads(fields[..n])[k]] {
      }
    }
  }

  lemma EntryVisitsStep(path: string, fields: seq<FieldDescriptor>, drawers: seq<CustomProtoDrawer>, containingType: string, fieldName: Option<string>, i: nat)
    requires i < |fields|
    ensures EntryVisits(path, fields[..i + 1], drawers, containingType, fieldName) ==
      EntryVisits(path, fields[..i], drawers, containingType, fieldName)
        + (if Starts(fields, i) then [VisitFor(path, fields[i], drawers, containingType, fieldName)] else [])
  {
    assert fields[..i + 1][..i] == fields[..i];
    StartsPrefix(fields, i + 1, i);
  }

  /** The loop of `DrawProto` over the descriptor's fields: consecutive fields of one oneof are
      drawn once, as the oneof. */
  method DrawEntries<L>(ctx: ProtoDrawerContext<L>, registry: DrawerRegistry, fields: seq<FieldDescriptor>)
    returns (visits: seq<Visit>)
    requires ctx.Valid()
    modifies ctx`builder, ctx`fullPath, ctx`foldout
    ensures ctx.Valid() && ctx.builder == old(ctx.builder)
    ensures |visits| == |Heads(fields)|
    ensures forall k :: 0 <= k < |visits| ==>
      visits[k] == VisitFor(old(ctx.builder), fields[Heads(fields)[k]], registry.Drawers, ctx.ContainingType, ctx.SerializedFieldName)
    ensures |visits| == 0 ==> ctx.foldout == old(ctx.foldout)
    ensures |visits| > 0 ==> ctx.foldout == None
  {
    visits := [];
    ghost var path := ctx.builder;
    var currentOneOf: Option<string> := None;
    var i := 0;
    while i < |fields|
      invariant 0 <= i <= |fields|
      invariant ctx.Valid() && ctx.builder == path
      invariant currentOneOf == if i == 0 then None else fields[i - 1].containingOneof
      invariant visits == EntryVisits(path, fields[..i], registry.Drawers, ctx.ContainingType, ctx.SerializedFieldName)
      invariant |visits| == 0 ==> ctx.foldout == old(ctx.foldout)
      invariant |visits| > 0 ==> ctx.foldout == None
    {
      var field := fields[i];
      var prevOneOf := currentOneOf;
      currentOneOf := field.containingOneof;
      EntryVisitsStep(path, fields, registry.Drawers, ctx.ContainingType, ctx.SerializedFieldName, i);
      if currentOneOf.Some? && prevOneOf == currentOneOf {
        i := i + 1;
        continue;
      }
      var v := DrawEntry(ctx, registry, field);
      visits := visits + [v];
      i := i + 1;
    }
    assert fields[..i] == fields;
    EntryVisitsAt(path, fields, registry.Drawers, ctx.ContainingType, ctx.SerializedFieldName);
  }

  /** One entry of `DrawProto`: `using (context.Enter(name))` around `GetDelegate` and the draw. */
  method DrawEntry<L>(ctx: ProtoDrawerContext<L>, registry: DrawerRegistry, field: FieldDescriptor) returns (v: Visit)
    requires ctx.Valid()
    modifies ctx`builder, ctx`fullPath, ctx`foldout
    ensures ctx.Valid() && ctx.builder == old(ctx.builder)
    ensures v == VisitFor(old(ctx.builder), field, registry.Drawers, ctx.ContainingType, ctx.SerializedFieldName)
    ensures ctx.foldout == None
  {
    var ctxName := if field.containingOneof.Some? then field.containingOneof.value else field.name;
    ghost var path := ctx.builder;
    var section := ctx.Enter(ctxName);
    var fieldDrawer := registry.GetDelegate(DrawFieldBase, ctx.ContainingType, ctx.SerializedFieldName, field);
    v := Visit(ctx.builder, field, field.containingOneof, fieldDrawer, Dispatch(field, field.containingOneof));
    EnterThenRemove(path, Field(ctxName));
    var _ := Dispose(section);
  }

  // ---------------------------------------------------------------- edits made by the widgets

  /** What the getter of a singular scalar field returns: the stored value, or the default of the
      property's type when the field is unset. */
  function StoredValue(values: map<int, FieldValue>, field: FieldDescriptor): FieldValue {
    if field.fieldNumber in values then values[field.fieldNumber] else Fresh(PropertyType(field))
  }

  /** `DrawProtoField` on a singular scalar field of the message, as `DrawField` calls it, with the
      field's accessor as getter and setter. Bytes and groups only get a label. Every other type
      goes to `DrawProtoField<T>`: the getter's value is cast to `T` (which may throw), the widget
      is drawn (`drawn` is what it returns), and the setter is called only when the widget's value
      differs from the one read; the setter throws on a value of another type. */
  method DrawScalarField(msg: ProtoMessage, field: FieldDescriptor, drawn: FieldValue) returns (outcome: Outcome<FieldTypeError>)
    requires Dispatch(field, None) == ScalarDrawer
    modifies msg`values
    ensures WidgetType(field.fieldType).None? ==> outcome == Pass && msg.values == old(msg.values)
    ensures !WidgetReads(field) ==> outcome == Fail(InvalidCast) && msg.values == old(msg.values)
    ensures WidgetType(field.fieldType).Some? && WidgetReads(field) ==>
      if drawn == StoredValue(old(msg.values), field) then outcome == Pass && msg.values == old(msg.values)
      else if drawn.clrType == PropertyType(field) then outcome == Pass && msg.values == old(msg.values)[field.fieldNumber := drawn]
      else outcome == Fail(InvalidCast) && msg.values == old(msg.values)
    // a widget that reads its field and returns a value of the field's type leaves exactly that value
    ensures WidgetType(field.fieldType).Some? && WidgetReads(field) && drawn.clrType == PropertyType(field) ==>
      outcome == Pass && StoredValue(msg.values, field) == drawn
  {
    if WidgetType(field.fieldType).None? {
      return Pass;
    }
    if !WidgetReads(field) {
      return Fail(InvalidCast);
    }
    var value := StoredValue(msg.values, field);
    if drawn != value {
      var stored := SetValue(field, drawn);
      if stored.Fail? {
        return stored;
      }
      msg.values := msg.values[field.fieldNumber := drawn];
    }
    outcome := Pass;
  }

  /** One checkbox of `DrawProtoOneOf`, given the oneof's case before it: when the box changes the
      whole oneof is cleared and, if the box was checked, the field is set to a fresh instance
      (creating or storing it may throw after the clear). */
  function ToggleCase(cur: Option<OneofCase>, field: FieldDescriptor, checked: bool): (r: Result<Option<OneofCase>, FieldTypeError>)
    ensures r.Failure? <==> checked && !(cur.Some? && cur.value.fieldNumber == field.fieldNumber) && FreshValue(field).Failure?
    ensures r.Success? && checked ==> r.value.Some? && r.value.value.fieldNumber == field.fieldNumber
    ensures r.Success? && !checked && cur.Some? && cur.value.fieldNumber != field.fieldNumber ==> r.value == cur
  {
    var isSelected := cur.Some? && cur.value.fieldNumber == field.fieldNumber;
    if checked == isSelected then Success(cur)
    else if !checked then Success(None)
    else
      match FreshValue(field)
      case Failure(e) => Failure(e)
      case Success(v) => Success(Some(OneofCase(field.fieldNumber, v)))
  }

  /** The case a run of checkboxes leaves the oneof in, and whether an exception stopped it. */
  datatype OneofRun = OneofRun(selected: Option<OneofCase>, outcome: Outcome<FieldTypeError>)

  /** The checkboxes in order. A checked box's case is then drawn by its widget, whose cast may
      throw; a failed toggle stops the loop with the oneof cleared, a failed cast with the case
      just toggled. */
  function ToggleAll(cur: Option<OneofCase>, cases: seq<FieldDescriptor>, checks: seq<bool>): OneofRun
    requires |cases| == |checks|
    decreases |cases|
  {
    if cases == [] then OneofRun(cur, Pass)
    else
      match ToggleCase(cur, cases[0], checks[0])
      case Failure(e) => OneofRun(None, Fail(e))
      case Success(next) =>
        if checks[0] && !WidgetReads(cases[0]) then OneofRun(next, Fail(InvalidCast))
        else ToggleAll(next, cases[1..], checks[1..])
  }

  predicate DistinctNumbers(cases: seq<FieldDescriptor>) {
    forall i, j :: 0 <= i < j < |cases| ==> cases[i].fieldNumber != cases[j].fieldNumber
  }

  lemma DistinctTail(cases: seq<FieldDescriptor>)
    requires cases != [] && DistinctNumbers(cases)
    ensures DistinctNumbers(cases[1..])
  {
    forall i, j | 0 <= i < j < |cases[1..]| ensures cases[1..][i].fieldNumber != cases[1..][j].fieldNumber {
      assert cases[1..][i] == cases[i + 1] && cases[1..][j] == cases[j + 1];
    }
  }

  /** With distinct field numbers, a run that ends without an exception leaves the oneof on the
      last checked case. */
  lemma {:induction false} LastCheckedCaseWins(cur: Option<OneofCase>, cases: seq<FieldDescriptor>, checks: seq<bool>, k: nat)
    requires |cases| == |checks| && DistinctNumbers(cases)
    requires k < |checks| && checks[k] && forall j :: k < j < |checks| ==> !checks[j]
    requires ToggleAll(cur, cases, checks).outcome == Pass
    ensures ToggleAll(cur, cases, checks).selected.Some?
    ensures ToggleAll(cur, cases, checks).selected.value.fieldNumber == cases[k].fieldNumber
    decreases k
  {
    var next := ToggleCase(cur, cases[0], checks[0]).value;
    if k == 0 {
      UncheckedKeepOther(next, cases[1..], checks[1..], cases[0].fieldNumber);
    } else {
      DistinctTail(cases);
      LastCheckedCaseWins(next, cases[1..], checks[1..], k - 1);
    }
  }

  /** Unchecked boxes of other fields leave a selected case alone. */
  lemma {:induction false} UncheckedKeepOther(cur: Option<OneofCase>, cases: seq<FieldDescriptor>, checks: seq<bool>, n: int)
    requires |cases| == |checks|
    requires cur.Some? && cur.value.fieldNumber == n
    requires forall j :: 0 <= j < |checks| ==> !checks[j] && cases[j].fieldNumber != n
    ensures ToggleAll(cur, cases, checks) == OneofRun(cur, Pass)
  {
    if cases != [] {
      UncheckedKeepOther(cur, cases[1..], checks[1..], n);
    }
  }

  /** Boxes that match the current selection leave it as it is; the run fails exactly when the
      selected case is shown and its widget cannot read it. */
  lemma {:induction false} UnchangedBoxesKeepCase(cur: Option<OneofCase>, cases: seq<FieldDescriptor>, checks: seq<bool>)
    requires |cases| == |checks|
    requires forall j :: 0 <= j < |checks| ==> checks[j] == (cur.Some? && cur.value.fieldNumber == cases[j].fieldNumber)
    ensures ToggleAll(cur, cases, checks).selected == cur
    ensures ToggleAll(cur, cases, checks).outcome == Pass <==>
      forall j :: 0 <= j < |checks| && checks[j] ==> WidgetReads(cases[j])
  {
    if cases != [] {
      UnchangedBoxesKeepCase(cur, cases[1..], checks[1..]);
      if !(checks[0] && !WidgetReads(cases[0])) {
        forall j | 0 <= j < |checks| && checks[j] && (forall l :: 0 <= l < |checks[1..]| && checks[1..][l] ==> WidgetReads(cases[1..][l]))
          ensures WidgetReads(cases[j])
        {
          if j > 0 {
            assert checks[1..][j - 1] == checks[j] && cases[1..][j - 1] == cases[j];
          }
        }
      }
    }
  }

  /** Unchecking the selected case, with every other box unchecked, empties the oneof. */
  lemma {:induction false} UncheckingClears(cur: Option<OneofCase>, cases: seq<FieldDescriptor>, checks: seq<bool>, k: nat)
    requires |cases| == |checks| && DistinctNumbers(cases)
    requires forall j :: 0 <= j < |checks| ==> !checks[j]
    requires k < |cases| && cur.Some? && cur.value.fieldNumber == cases[k].fieldNumber
    ensures ToggleAll(cur, cases, checks) == OneofRun(None, Pass)
  {
    var next := ToggleCase(cur, cases[0], checks[0]).value;
    DistinctTail(cases);
    if k == 0 {
      assert next == None;
      NoneStaysNone(cases[1..], checks[1..]);
    } else {
      assert next == cur;
      UncheckingClears(cur, cases[1..], checks[1..], k - 1);
    }
  }

  lemma {:induction false} NoneStaysNone(cases: seq<FieldDescriptor>, checks: seq<bool>)
    requires |cases| == |checks|
    requires forall j :: 0 <= j < |checks| ==> !checks[j]
    ensures ToggleAll(None, cases, checks) == OneofRun(None, Pass)
  {
    if cases != [] {
      NoneStaysNone(cases[1..], checks[1..]);
    }
  }

  /** The oneof's case in a message: `Some` of the set case, `None` when cleared. */
  function CaseOf(cases: map<string, OneofCase>, oneof: string): Option<OneofCase> {
    if oneof in cases then Some(cases[oneof]) else None
  }

  function WithCase(cases: map<string, OneofCase>, oneof: string, c: Option<OneofCase>): map<string, OneofCase> {
    if c.Some? then cases[oneof := c.value] else cases - {oneof}
  }

  /** The cases whose boxes are checked; each is then drawn inside `context.Enter(field.Name)`. */
  function Checked(cases: seq<FieldDescriptor>, checks: seq<bool>): seq<FieldDescriptor>
    requires |cases| == |checks|
  {
    if cases == [] then [] else (if checks[0] then [cases[0]] else []) + Checked(cases[1..], checks[1..])
  }

  /** One box of the run, on the suffix of the cases from `i`. */
  lemma OneofStep(cur: Option<OneofCase>, cases: seq<FieldDescriptor>, checks: seq<bool>, i: nat)
    requires |cases| == |checks| && i < |cases|
    ensures ToggleAll(cur, cases[i..], checks[i..]) ==
      match ToggleCase(cur, cases[i], checks[i])
      case Failure(e) => OneofRun(None, Fail(e))
      case Success(next) =>
        if checks[i] && !WidgetReads(cases[i]) then OneofRun(next, Fail(InvalidCast))
        else ToggleAll(next, cases[i + 1..], checks[i + 1..])
    ensures Checked(cases[i..], checks[i..]) == (if checks[i] then [cases[i]] else []) + Checked(cases[i + 1..], checks[i + 1..])
  {
    assert cases[i..][1..] == cases[i + 1..] && checks[i..][1..] == checks[i + 1..];
  }

  lemma WithCaseTwice(cases: map<string, OneofCase>, oneof: string, c: Option<OneofCase>, c': Option<OneofCase>)
    ensures WithCase(WithCase(cases, oneof, c), oneof, c') == WithCase(cases, oneof, c')
    ensures WithCase(cases, oneof, c) - {oneof} == cases - {oneof}
    ensures CaseOf(WithCase(cases, oneof, c), oneof) == c
  {
  }

  lemma WithOwnCase(cases: map<string, OneofCase>, oneof: string)
    ensures WithCase(cases, oneof, CaseOf(cases, oneof)) == cases
  {
  }

  /** One checkbox of `DrawProtoOneOf` on the message, as `ToggleCase` describes it. */
  method ToggleOneofCase(msg: ProtoMessage, oneof: string, field: FieldDescriptor, newSelected: bool)
    returns (outcome: Outcome<FieldTypeError>)
    modifies msg`oneofCases
    ensures match ToggleCase(CaseOf(old(msg.oneofCases), oneof), field, newSelected)
      case Success(c) => outcome == Pass && msg.oneofCases == WithCase(old(msg.oneofCases), oneof, c)
      case Failure(e) => outcome == Fail(e) && msg.oneofCases == old(msg.oneofCases) - {oneof}
  {
    outcome := Pass;
    var currentItem := CaseOf(msg.oneofCases, oneof);
    var isSelected := currentItem.Some? && field.fieldNumber == currentItem.value.fieldNumber;
    if newSelected != isSelected {
      msg.oneofCases := msg.oneofCases - {oneof};
      if newSelected {
        var created := CreateInstance(field);
        if created.Failure? {
          return Fail(created.error);
        }
        var stored := SetValue(field, created.value);
        if stored.Fail? {
          return stored;
        }
        msg.oneofCases := msg.oneofCases[oneof := OneofCase(field.fieldNumber, created.value)];
      }
    } else {
      assert msg.oneofCases == WithCase(old(msg.oneofCases), oneof, currentItem);
    }
  }

  /** `DrawProtoOneOf` on the message: nothing when the foldout is closed; otherwise each box in
      turn (`checks` holds what the widgets return), each checked case then drawn by its widget.
      Other oneofs and fields are untouched. */
  method DrawProtoOneOf(msg: ProtoMessage, oneof: string, cases: seq<FieldDescriptor>, shown: bool, checks: seq<bool>)
    returns (outcome: Outcome<FieldTypeError>, drawn: seq<FieldDescriptor>)
    requires |cases| == |checks|
    modifies msg`oneofCases
    ensures !shown ==> outcome == Pass && drawn == [] && msg.oneofCases == old(msg.oneofCases)
    ensures shown ==> var run := ToggleAll(CaseOf(old(msg.oneofCases), oneof), cases, checks);
      && outcome == run.outcome
      && msg.oneofCases == WithCase(old(msg.oneofCases), oneof, run.selected)
      && (outcome == Pass ==> drawn == Checked(cases, checks))
  {
    drawn := [];
    outcome := Pass;
    if !shown {
      return;
    }
    ghost var start := old(msg.oneofCases);
    ghost var sel := CaseOf(start, oneof);
    WithOwnCase(start, oneof);
    var i := 0;
    while i < |cases|
      invariant 0 <= i <= |cases|
      invariant msg.oneofCases == WithCase(start, oneof, sel)
      invariant ToggleAll(CaseOf(start, oneof), cases, checks) == ToggleAll(sel, cases[i..], checks[i..])
      invariant Checked(cases, checks) == drawn + Checked(cases[i..], checks[i..])
    {
      WithCaseTwice(start, oneof, sel, None);
      OneofStep(sel, cases, checks, i);
      var step := ToggleOneofCase(msg, oneof, cases[i], checks[i]);
      if step.Fail? {
        return step, drawn;
      }
      ghost var next := ToggleCase(sel, cases[i], checks[i]).value;
      WithCaseTwice(start, oneof, sel, next);
      sel := next;
      if checks[i] {
        if !WidgetReads(cases[i]) {
          return Fail(InvalidCast), drawn;
        }
        drawn := drawn + [cases[i]];
      }
      i := i + 1;
    }
    assert cases[i..] == [] && checks[i..] == [];
  }

  /** `DrawProtoMessage`'s checkbox (`create` is what it returns): unchecking a set sub-message
      clears the field, checking an absent one stores a fresh instance; otherwise nothing changes. */
  method ToggleSubMessage(msg: ProtoMessage, field: FieldDescriptor, create: bool) returns (outcome: Outcome<FieldTypeError>)
    modifies msg`values
    ensures var n := field.fieldNumber;
      && (n in old(msg.values) && !create ==> outcome == Pass && msg.values == old(msg.values) - {n})
      && (n !in old(msg.values) && create ==> match FreshValue(field)
           case Success(v) => outcome == Pass && msg.values == old(msg.values)[n := v]
           case Failure(e) => outcome == Fail(e) && msg.values == old(msg.values))
      && ((n in old(msg.values)) == create ==> outcome == Pass && msg.values == old(msg.values))
    ensures outcome == Pass ==> (field.fieldNumber in msg.values <==> create)
  {
    var present := field.fieldNumber in msg.values;
    outcome := Pass;
    if present && !create {
      msg.values := msg.values - {field.fieldNumber};
    }
    if !present && create {
      var created := CreateInstance(field);
      if created.Failure? {
        return Fail(created.error);
      }
      var stored := SetValue(field, created.value);
      if stored.Fail? {
        return stored;
      }
      msg.values := msg.values[field.fieldNumber := created.value];
    }
  }

  /** A singular sub-message field can always be created and stored. */
  lemma SubMessageCreatable(field: FieldDescriptor)
    requires !field.isRepeated && !field.isMap && field.fieldType == Message
    ensures FreshValue(field) == Success(Fresh(MessageClr(field.messageClrType)))
  {
  }
}
