/** `ProtoDrawerContext`: the dotted path of the field being drawn, kept in a string builder that
    `Enter` appends to and the returned section token truncates; the path-keyed foldout and list
    drawer caches; and the per-object registry of contexts. */
module DrawerContext {
  import opened Wrappers
  import opened Strings

  /** One step of a path: a field (`Enter(string)`) or a list element (`Enter(int)`). */
  datatype Section = Field(name: string) | Element(index: int32)

  /** The text appended for a section: a field name, preceded by a dot unless the path is empty,
      or the decimal index in brackets. */
  function SectionText(path: string, s: Section): (t: string)
    ensures s.Field? && |path| == 0 ==> t == s.name
    ensures s.Field? && |path| > 0 ==> t == "." + s.name
    ensures s.Element? ==> t == "[" + IntToDecimal(s.index as int) + "]"
  {
    match s
    case Field(name) => if |path| == 0 then name else "." + name
    case Element(i) => "[" + IntToDecimal(i as int) + "]"
  }

  /** `StringBuilder.Remove(Length - k, k)`: drops the last `k` characters, or throws when `k`
      is negative or longer than the text. */
  function RemoveLast(s: string, k: int): (r: Result<string, ArgumentError>)
    ensures r.Success? <==> 0 <= k <= |s|
    ensures r.Success? ==> |r.value| == |s| - k && r.value == s[..|s| - k]
  {
    if 0 <= k <= |s| then Success(s[..|s| - k]) else Failure(ArgumentOutOfRange)
  }

  datatype ArgumentError = ArgumentOutOfRange

  /** Entering a section and removing as many characters as were appended gives the path back. */
  lemma EnterThenRemove(path: string, s: Section)
    ensures RemoveLast(path + SectionText(path, s), |SectionText(path, s)|) == Success(path)
  {
    var t := path + SectionText(path, s);
    assert t[..|t| - |SectionText(path, s)|] == path;
  }

  /** A `using (context.Enter(section)) { ...inner scopes... }` block. */
  datatype Scope = Scope(section: Section, inner: seq<Scope>)

  /** The path after a scope closes: enter, run the inner scopes, drop the section's length. */
  function RunScope(path: string, sc: Scope): string
    decreases sc
  {
    var text := SectionText(path, sc.section);
    var after := RunScopes(path + text, sc.inner);
    match RemoveLast(after, |text|)
    case Success(p) => p
    case Failure(_) => after
  }

  /** The path after a sequence of sibling scopes. */
  function RunScopes(path: string, scs: seq<Scope>): string
    decreases scs
  {
    if scs == [] then path else RunScopes(RunScope(path, scs[0]), scs[1..])
  }

  /** Properly nested `Enter`/`Dispose` pairs, to any depth, leave the path as they found it. */
  lemma {:induction false} NestedScopesRestore(path: string, scs: seq<Scope>)
    ensures RunScopes(path, scs) == path
    decreases scs
  {
    if scs != [] {
      ScopeRestores(path, scs[0]);
      NestedScopesRestore(path, scs[1..]);
    }
  }

  lemma {:induction false} ScopeRestores(path: string, sc: Scope)
    ensures RunScope(path, sc) == path
    decreases sc
  {
    var text := SectionText(path, sc.section);
    NestedScopesRestore(path + text, sc.inner);
    EnterThenRemove(path, sc.section);
  }

  /** `EditorPrefs`: a persistent store of booleans keyed by string. */
  class Prefs {
    var store: map<string, bool>

    constructor (store: map<string, bool>)
      ensures this.store == store
    {
      this.store := store;
    }

    /** `EditorPrefs.GetBool(key, default)`. */
    function GetBool(key: string, default: bool): (b: bool)
      reads this
      ensures key in store ==> b == store[key]
      ensures key !in store ==> b == default
    {
      if key in store then store[key] else default
    }

    /** `EditorPrefs.SetBool(key, value)`. */
    method SetBool(key: string, value: bool)
      modifies this
      ensures store == old(store)[key := value]
    {
      store := store[key := value];
    }
  }

  /** The token `Enter` returns; disposing it strips `SectionLength` characters. */
  datatype PathContext<L> = PathContext(context: ProtoDrawerContext<L>, SectionLength: int)

  /** A drawing context; `L` is the list drawer type it keeps per path. */
  class ProtoDrawerContext<L> {
    const ContainingType: string
    const SerializedFieldName: Option<string>
    var listReferences: map<string, L>
    var builder: string
    var fullPath: Option<string>
    var foldout: Option<bool>

    /** The cached path, when present, is the builder's text. */
    ghost predicate Valid()
      reads this
    {
      fullPath.Some? ==> fullPath.value == builder
    }

    /** Starts the path with `key` and registers the context under `key` in `cache`. */
    constructor (key: string, containingType: string, serializedFieldName: Option<string>, cache: ContextCache<L>)
      modifies cache
      ensures Valid() && builder == key && fullPath == None && foldout == None && listReferences == map[]
      ensures ContainingType == containingType && SerializedFieldName == serializedFieldName
      ensures cache.entries == old(cache.entries)[key := this]
    {
      ContainingType := containingType;
      SerializedFieldName := serializedFieldName;
      listReferences := map[];
      builder := key;
      fullPath := None;
      foldout := None;
      new;
      cache.entries := cache.entries[key := this];
    }

    method NotifyPathChanged()
      modifies this`fullPath, this`foldout
      ensures fullPath == None && foldout == None
    {
      fullPath := None;
      foldout := None;
    }

    /** `Enter(string)`: appends the field name (after a dot unless the path is empty) and returns
        a token holding exactly the number of characters appended. */
    method Enter(fieldName: string) returns (section: PathContext<L>)
      modifies this`builder, this`fullPath, this`foldout
      ensures Valid() && fullPath == None && foldout == None
      ensures builder == old(builder) + SectionText(old(builder), Field(fieldName))
      ensures section == PathContext(this, |builder| - |old(builder)|)
    {
      var length := |builder|;
      if |builder| == 0 {
        builder := builder + fieldName;
      } else {
        builder := builder + "." + fieldName;
      }
      NotifyPathChanged();
      section := PathContext(this, |builder| - length);
    }

    /** `Enter(int)`: appends `[i]` and returns a token holding the number of characters appended. */
    method EnterElement(arrayElement: int32) returns (section: PathContext<L>)
      modifies this`builder, this`fullPath, this`foldout
      ensures Valid() && fullPath == None && foldout == None
      ensures builder == old(builder) + SectionText(old(builder), Element(arrayElement))
      ensures section == PathContext(this, |builder| - |old(builder)|)
    {
      var length := |builder|;
      builder := builder + "[" + IntToDecimal(arrayElement as int) + "]";
      NotifyPathChanged();
      section := PathContext(this, |builder| - length);
    }

    /** `FullPath`: the builder's text, cached until the next path change. */
    method FullPath() returns (p: string)
      requires Valid()
      modifies this`fullPath
      ensures Valid() && p == builder && fullPath == Some(builder)
    {
      if fullPath.None? {
        fullPath := Some(builder);
      }
      p := fullPath.value;
    }

    /** `Foldout` getter: the cached state, else the preference stored under the path (default
        false), which is then cached. */
    method GetFoldout(prefs: Prefs) returns (b: bool)
      requires Valid()
      modifies this`fullPath, this`foldout
      ensures Valid()
      ensures b == if old(foldout).Some? then old(foldout).value else prefs.GetBool(builder, false)
      ensures foldout == Some(b)
    {
      if foldout.None? {
        var path := FullPath();
        foldout := Some(prefs.GetBool(path, false));
      }
      b := foldout.value;
    }

    /** `Foldout` setter: nothing happens when `value` is already cached; otherwise the value is
        cached and stored under the path. */
    method SetFoldout(prefs: Prefs, value: bool)
      requires Valid()
      modifies this`fullPath, this`foldout, prefs
      ensures Valid()
      ensures old(foldout) == Some(value) ==> foldout == old(foldout) && prefs.store == old(prefs.store)
      ensures old(foldout) != Some(value) ==> foldout == Some(value) && prefs.store == old(prefs.store)[builder := value]
    {
      if foldout == Some(value) {
        return;
      }
      foldout := Some(value);
      var path := FullPath();
      prefs.SetBool(path, value);
    }

    /** `CurrentList` getter: the drawer stored under the current path, if any. */
    method GetCurrentList() returns (l: Option<L>)
      requires Valid()
      modifies this`fullPath
      ensures Valid()
      ensures builder in listReferences ==> l == Some(listReferences[builder])
      ensures builder !in listReferences ==> l == None
    {
      var path := FullPath();
      l := if path in listReferences then Some(listReferences[path]) else None;
    }

    /** `CurrentList` setter: stores the drawer under the current path. */
    method SetCurrentList(l: L)
      requires Valid()
      modifies this`fullPath, this`listReferences
      ensures Valid()
      ensures listReferences == old(listReferences)[builder := l]
    {
      var path := FullPath();
      listReferences := listReferences[path := l];
    }
  }

  /** `PathContext.Dispose`: removes the last `SectionLength` characters and clears both caches;
      when there are not that many characters `Remove` throws and nothing changes. */
  method Dispose<L>(section: PathContext<L>) returns (outcome: Outcome<ArgumentError>)
    modifies section.context`builder, section.context`fullPath, section.context`foldout
    ensures var r := RemoveLast(old(section.context.builder), section.SectionLength);
      && (r.Success? ==> outcome == Pass && section.context.builder == r.value
                         && section.context.fullPath == None && section.context.foldout == None)
      && (r.Failure? ==> outcome == Fail(r.error) && section.context.builder == old(section.context.builder)
                         && section.context.fullPath == old(section.context.fullPath)
                         && section.context.foldout == old(section.context.foldout))
  {
    var ctx := section.context;
    var removed := RemoveLast(ctx.builder, section.SectionLength);
    if removed.Failure? {
      return Fail(removed.error);
    }
    ctx.builder := removed.value;
    ctx.NotifyPathChanged();
    outcome := Pass;
  }

  /** Entering a section and disposing its token restores the path and leaves the caches empty. */
  method EnterDispose<L>(ctx: ProtoDrawerContext<L>, s: Section) returns (outcome: Outcome<ArgumentError>)
    modifies ctx`builder, ctx`fullPath, ctx`foldout
    ensures outcome == Pass && ctx.builder == old(ctx.builder) && ctx.Valid()
  {
    var section;
    match s {
      case Field(name) => section := ctx.Enter(name);
      case Element(i) => section := ctx.EnterElement(i);
    }
    EnterThenRemove(old(ctx.builder), s);
    outcome := Dispose(section);
  }

  /** The static `Cache`: one context per key. */
  class ContextCache<L> {
    var entries: map<string, ProtoDrawerContext<L>>

    constructor ()
      ensures entries == map[]
    {
      entries := map[];
    }

    /** `FromCache(key, type, fieldName)`: the registered context, or a new one registered under
        `key`. */
    method FromCache(key: string, containingType: string, fieldName: Option<string>) returns (ctx: ProtoDrawerContext<L>)
      modifies this
      ensures key in old(entries) ==> ctx == old(entries)[key] && entries == old(entries)
      ensures key !in old(entries) ==> fresh(ctx) && entries == old(entries)[key := ctx]
      ensures key !in old(entries) ==> ctx.Valid() && ctx.builder == key && ctx.listReferences == map[]
    {
      if key in entries {
        ctx := entries[key];
      } else {
        ctx := new ProtoDrawerContext(key, containingType, fieldName, this);
      }
    }

    /** `FromCache(obj, propertyName)`: the key is the object's global id, followed by
        `.propertyName` when a property name is given. */
    method FromCacheForObject(objectId: string, objectType: string, propertyName: Option<string>)
      returns (ctx: ProtoDrawerContext<L>)
      modifies this
      ensures var key := if propertyName.Some? then objectId + "." + propertyName.value else objectId;
        && (key in old(entries) ==> ctx == old(entries)[key] && entries == old(entries))
        && (key !in old(entries) ==> fresh(ctx) && entries == old(entries)[key := ctx] && ctx.builder == key)
    {
      var key := objectId;
      if propertyName.Some? {
        key := key + "." + propertyName.value;
      }
      ctx := FromCache(key, objectType, propertyName);
    }
  }
}
