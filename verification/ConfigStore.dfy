/** String settings of a configuration object: `set`, `get` and `deleteKey` of
    pkg/config/internal.go, and what `expandRawString` looks up for a reference. */
module ConfigStore {
  import opened Expansion
  import opened GoText
  import opened Preservation
  import opened Replacement
  import opened Strays

  /** A stored setting; deleting a key stores a marker. */
  datatype Value = Str(s: string) | Deleted

  type Settings = map<string, Value>

  predicate IsSet(m: Settings, key: string) {
    key in m && m[key].Str?
  }

  function Stored(m: Settings, key: string): string {
    if IsSet(m, key) then m[key].s else ""
  }

  /** What `${name}` stands for. `external` is everything that does not come from the settings:
      files, environment, functions and encoded values. */
  function Lookup(m: Settings, external: string -> string): string -> string {
    (name: string) =>
      if "config:" <= name then TrimSpace(Stored(m, name[7..]))
      else if ':' !in name && '/' !in name && '.' in name then TrimSpace(Stored(m, name))
      else external(name)
  }

  /** `get` for a string with the default options. */
  function Get(m: Settings, external: string -> string, key: string): string {
    if IsSet(m, key) then TrimSpace(Expand(m[key].s, Lookup(m, external))) else ""
  }

  function Reader(m: Settings, external: string -> string): string -> string {
    key => Get(m, external, key)
  }

  /** What `set` stores for `value` with the `Replace` options `keys`. */
  function Rewritten(m: Settings, external: string -> string, value: string, keys: seq<string>): Outcome {
    FoldKeys(value, keys, Reader(m, external))
  }

  class Config {
    var settings: Settings
    const external: string -> string

    constructor (external: string -> string)
      ensures settings == map[] && this.external == external
    {
      settings := map[];
      this.external := external;
    }

    method Set(key: string, value: string, keys: seq<string>, noExpand: bool) returns (ok: bool)
      modifies this
      ensures ok <==> noExpand || Rewritten(old(settings), external, value, keys).Text?
      ensures settings == if !ok then old(settings)
                          else if noExpand then old(settings)[key := Str(value)]
                          else old(settings)[key := Str(Rewritten(old(settings), external, value, keys).s)]
    {
      if noExpand {
        settings := settings[key := Str(value)];
        return true;
      }
      var m, e := settings, external;
      var r := ReplaceStringParam(value, keys, Reader(m, e));
      if r == SliceOutOfRange {
        return false;
      }
      settings := settings[key := Str(r.s)];
      return true;
    }

    method Delete(key: string)
      modifies this
      ensures settings == old(settings)[key := Deleted]
      ensures Get(settings, external, key) == ""
      ensures forall k | k != key :: IsSet(settings, k) == IsSet(old(settings), k)
    {
      settings := settings[key := Deleted];
    }
  }

  // ----- what a stored value means -----

  /** Does a reference with this name read `key`? */
  predicate Reads(name: string, key: string) {
    name == "config:" + key || (':' !in name && '/' !in name && name == key)
  }

  predicate Mentions(value: string, key: string) {
    exists i | 0 <= i < |Tokens(value)| :: Tokens(value)[i].Ref? && Reads(Tokens(value)[i].name, key)
  }

  lemma LookupFrame(m: Settings, external: string -> string, key: string, v: Value, name: string)
    requires !Reads(name, key)
    ensures Lookup(m[key := v], external)(name) == Lookup(m, external)(name)
  {
    if "config:" <= name {
      var k := name[7..];
      assert name[..7] == "config:";
      assert name == name[..7] + k;
      assert k != key;
      assert Stored(m[key := v], k) == Stored(m, k);
    } else if ':' !in name && '/' !in name && '.' in name {
      assert Stored(m[key := v], name) == Stored(m, name);
    } else {
      assert Lookup(m, external)(name) == external(name);
    }
  }

  lemma {:induction false} RenderFrame(ts: seq<Token>, f: string -> string, g: string -> string)
    requires forall i | 0 <= i < |ts| && ts[i].Ref? :: f(ts[i].name) == g(ts[i].name)
    ensures Render(ts, f) == Render(ts, g)
  {
    if |ts| > 0 {
      assert forall i | 0 <= i < |ts[1..]| :: ts[1..][i] == ts[i + 1];
      RenderFrame(ts[1..], f, g);
    }
  }

  /** Keys that `Replace` may name when `key` is set: other keys, with plain values. */
  predicate Replaceable(m: Settings, key: string, r: string) {
    r != key && FlatName(RefName(r)) && !HasOpener(Stored(m, r))
  }

  lemma ReplaceableLookup(m: Settings, external: string -> string, key: string, v: Value, r: string)
    requires Replaceable(m, key, r)
    ensures Lookup(m[key := v], external)(RefName(r)) == Get(m, external, r)
  {
    assert RefName(r)[7..] == r;
    assert TrimSpace("") == "";
    if IsSet(m, r) {
      ExpandPlain(m[r].s, Lookup(m, external));
    }
  }

  /** Setting a value that lasts under a list of replacements, and reading it back, gives the value as it was
      written, expanded; the replacements do not show. */
  lemma SetThenGet(m: Settings, external: string -> string, key: string, value: string, keys: seq<string>)
    requires Lasts(value, keys, Reader(m, external)) && !Mentions(value, key)
    requires forall r | r in keys :: Replaceable(m, key, r)
    ensures var o := Rewritten(m, external, value, keys);
            && o.Text?
            && Get(m[key := Str(o.s)], external, key) == TrimSpace(Expand(value, Lookup(m, external)))
  {
    hide FlatName, Get, Lookup, TrimSpace, HasOpener, Foldable, PlainFails;
    var subs := Reader(m, external);
    var o := Rewritten(m, external, value, keys);
    var v := if o.Text? then Str(o.s) else Deleted;
    var after := Lookup(m[key := v], external);
    forall r | r in keys
      ensures FlatName(RefName(r)) && after(RefName(r)) == subs(r)
    {
      ReplaceableLookup(m, external, key, v, r);
    }
    FoldKeysKeep(value, keys, subs, after);
    var ts := Tokens(value);
    forall i | 0 <= i < |ts| && ts[i].Ref?
      ensures after(ts[i].name) == Lookup(m, external)(ts[i].name)
    {
      LookupFrame(m, external, key, v, ts[i].name);
    }
    RenderFrame(ts, after, Lookup(m, external));
    assert Get(m[key := v], external, key) == TrimSpace(Expand(v.s, after)) by { GetStr(m, external, key, v.s); }
  }

  lemma ConfigName(key: string)
    requires Balanced(key)
    ensures Balanced("config:" + key)
  {
    hide Closed;
    PlainBalanced("config:");
    ClosedAppend("config:", START, key);
  }

  lemma LookupConfig(m: Settings, external: string -> string, key: string)
    ensures Lookup(m, external)("config:" + key) == TrimSpace(Stored(m, key))
  {
    var name := "config:" + key;
    assert "config:" <= name && name[7..] == key;
  }

  /** A reference to a key stands for its value, trimmed, and for nothing while the key is not set. Every key can be
      named behind `config:`; one with a dot and neither a colon nor a slash can also be named as it is. */
  lemma KeyReference(m: Settings, external: string -> string, key: string, value: string)
    requires key != "" && Balanced(key)
    ensures Expand("${config:" + key + "}", Lookup(m[key := Str(value)], external)) == TrimSpace(value)
    ensures !IsSet(m, key) ==> Expand("${config:" + key + "}", Lookup(m, external)) == ""
    ensures '.' in key && ':' !in key && '/' !in key ==>
              && Expand("${" + key + "}", Lookup(m[key := Str(value)], external)) == TrimSpace(value)
              && (!IsSet(m, key) ==> Expand("${" + key + "}", Lookup(m, external)) == "")
  {
    hide Expand, Balanced;
    var name, after := "config:" + key, Lookup(m[key := Str(value)], external);
    assert TrimSpace("") == "";
    LookupConfig(m, external, key);
    LookupConfig(m[key := Str(value)], external, key);
    assert "${config:" + key + "}" == "${" + name + "}";
    ConfigName(key);
    OneReference(name, after);
    OneReference(name, Lookup(m, external));
    OneReference(key, after);
    OneReference(key, Lookup(m, external));
    assert "config:" <= key ==> key[6] == ':';
  }

  /** Any other reference is not to the settings. */
  lemma OtherReference(m: Settings, external: string -> string, name: string)
    requires name != "" && Balanced(name) && !("config:" <= name)
    requires ':' in name || '/' in name || '.' !in name
    ensures Expand("${" + name + "}", Lookup(m, external)) == external(name)
  {
    hide Expand, Balanced;
    OneReference(name, Lookup(m, external));
  }

  lemma GetStr(m: Settings, external: string -> string, key: string, s: string)
    ensures Get(m[key := Str(s)], external, key) == TrimSpace(Expand(s, Lookup(m[key := Str(s)], external)))
  {
  }

  /** A plain value set with one replacement follows later changes of the key it was folded with. */
  lemma SetThenChange(m: Settings, external: string -> string, key: string, value: string, r: string, changed: string)
    requires !HasOpener(value) && r != key && FlatName(RefName(r))
    ensures var o := Rewritten(m, external, value, [r]);
            && o.Text?
            && Get(m[key := Str(o.s)][r := Str(changed)], external, key)
               == TrimSpace(ReplaceAllFrom(value, 0, Get(m, external, r), TrimSpace(changed)))
  {
    hide FlatName, Expand, TrimSpace;
    var o := Rewritten(m, external, value, [r]);
    var subs := Reader(m, external);
    assert FoldKeys(FoldOne(value, subs(r), r).s, [r][1..], subs) == FoldOne(value, subs(r), r);
    var m' := m[key := Str(o.s)][r := Str(changed)];
    assert RefName(r)[7..] == r;
    assert Lookup(m', external)(RefName(r)) == TrimSpace(changed);
    FoldOneFollows(value, Get(m, external, r), r, Lookup(m', external));
  }
}
