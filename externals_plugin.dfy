/** The externals list `NextExternalsPlugin::apply` hands to rspack
    (crates/binding/src/next_externals_plugin.rs), chosen by compiler type. */
module ExternalsPlugin {

  /** rspack's `ExternalItemValue`; only its string form is used here. */
  datatype ExternalItemValue = StringValue(s: string)

  /** rspack's `ExternalItem`: a request name, or an object mapping request
      names to values. */
  datatype ExternalItem = Name(name: string) | Object(entries: map<string, ExternalItemValue>)

  const SUPPORTED_NATIVE_MODULES: seq<string> := ["buffer", "events", "assert", "util", "async_hooks"]

  /** The value both spellings of module `m` map to. */
  function NodeExternal(m: string): ExternalItemValue {
    StringValue("commonjs node:" + m)
  }

  /** The object after inserting the entries of `mods`, in order, into an
      empty one (the loop of lines 22-25). */
  function Polyfills(mods: seq<string>): (p: map<string, ExternalItemValue>)
    decreases |mods|
  {
    if mods == [] then map[]
    else Polyfills(mods[..|mods| - 1])[mods[|mods| - 1] := NodeExternal(mods[|mods| - 1])]
                                      ["node:" + mods[|mods| - 1] := NodeExternal(mods[|mods| - 1])]
  }

  /** The two spellings, `m` and `node:m`, of each module of `mods`. */
  function Spellings(mods: seq<string>): set<string>
    decreases |mods|
  {
    if mods == [] then {} else Spellings(mods[..|mods| - 1]) + {mods[|mods| - 1], "node:" + mods[|mods| - 1]}
  }

  /** The keys of the fold are exactly the two spellings of every module. */
  lemma {:induction false} PolyfillsKeys(mods: seq<string>)
    ensures Polyfills(mods).Keys == Spellings(mods)
    decreases |mods|
  {
    if mods != [] {
      PolyfillsKeys(mods[..|mods| - 1]);
    }
  }

  /** Both spellings of each module of `mods` are among its spellings. */
  lemma {:induction false} SpellingsCover(mods: seq<string>)
    ensures forall i :: 0 <= i < |mods| ==> mods[i] in Spellings(mods) && "node:" + mods[i] in Spellings(mods)
    decreases |mods|
  {
    if mods != [] {
      var init := mods[..|mods| - 1];
      SpellingsCover(init);
      forall i | 0 <= i < |mods| - 1 ensures mods[i] in Spellings(mods) && "node:" + mods[i] in Spellings(mods) {
        assert init[i] == mods[i];
      }
    }
  }

  /** A module without the `node:` prefix maps, under both spellings, to the
      `commonjs node:` form of the last module of `mods` spelt that way, or
      to what it mapped to before. */
  lemma {:induction false} PolyfillsValues(mods: seq<string>)
    requires forall i :: 0 <= i < |mods| ==> |mods[i]| < 5 || mods[i][..5] != "node:"
    ensures forall i :: 0 <= i < |mods| ==> mods[i] in Polyfills(mods) && "node:" + mods[i] in Polyfills(mods)
    ensures forall i :: 0 <= i < |mods| ==> Polyfills(mods)[mods[i]] == NodeExternal(mods[i])
    ensures forall i :: 0 <= i < |mods| ==> Polyfills(mods)["node:" + mods[i]] == NodeExternal(mods[i])
    decreases |mods|
  {
    if mods != [] {
      var init, last := mods[..|mods| - 1], mods[|mods| - 1];
      PolyfillsKeys(mods);
      SpellingsCover(mods);
      PolyfillsValues(init);
      forall i | 0 <= i < |mods| - 1
        ensures Polyfills(mods)[mods[i]] == NodeExternal(mods[i])
        ensures Polyfills(mods)["node:" + mods[i]] == NodeExternal(mods[i])
      {
        var m := mods[i];
        assert init[i] == m;
        assert ("node:" + last)[..5] == "node:";
        if "node:" + m == "node:" + last {
          assert m == ("node:" + m)[5..] == ("node:" + last)[5..] == last;
        }
      }
    }
  }

  /** `get_edge_polyfilled_modules` (lines 20-27). */
  method GetEdgePolyfilledModules() returns (item: ExternalItem)
    ensures item == Object(Polyfills(SUPPORTED_NATIVE_MODULES))
  {
    var externals: map<string, ExternalItemValue> := map[];
    var i := 0;
    while i < |SUPPORTED_NATIVE_MODULES|
      invariant 0 <= i <= |SUPPORTED_NATIVE_MODULES|
      invariant externals == Polyfills(SUPPORTED_NATIVE_MODULES[..i])
    {
      var nativeModule := SUPPORTED_NATIVE_MODULES[i];
      assert SUPPORTED_NATIVE_MODULES[..i + 1][..i] == SUPPORTED_NATIVE_MODULES[..i];
      externals := externals[nativeModule := StringValue("commonjs node:" + nativeModule)];
      externals := externals["node:" + nativeModule := StringValue("commonjs node:" + nativeModule)];
      i := i + 1;
    }
    assert SUPPORTED_NATIVE_MODULES[..i] == SUPPORTED_NATIVE_MODULES;
    item := Object(externals);
  }

  const EDGE_POLYFILL_KEYS: set<string> :=
    {"buffer", "node:buffer", "events", "node:events", "assert", "node:assert",
     "util", "node:util", "async_hooks", "node:async_hooks"}

  lemma SupportedSpellings()
    ensures Spellings(SUPPORTED_NATIVE_MODULES) == EDGE_POLYFILL_KEYS
  {
    var mods := SUPPORTED_NATIVE_MODULES;
    var m4, m3, m2, m1 := mods[..4], mods[..3], mods[..2], mods[..1];
    assert "node:" + "buffer" == "node:buffer" && "node:" + "events" == "node:events";
    assert "node:" + "assert" == "node:assert" && "node:" + "util" == "node:util";
    assert "node:" + "async_hooks" == "node:async_hooks";
    assert m1 == ["buffer"] && m1[..0] == [];
    assert Spellings(m1) == {"buffer", "node:buffer"};
    assert m2 == ["buffer", "events"] && m2[..1] == m1;
    assert Spellings(m2) == Spellings(m1) + {"events", "node:events"};
    assert m3 == ["buffer", "events", "assert"] && m3[..2] == m2;
    assert Spellings(m3) == Spellings(m2) + {"assert", "node:assert"};
    assert m4 == ["buffer", "events", "assert", "util"] && m4[..3] == m3;
    assert Spellings(m4) == Spellings(m3) + {"util", "node:util"};
    assert mods[..4] == m4;
  }

  /** The edge polyfill object has exactly the ten keys `m` and `node:m`
      for the five supported modules, each mapped to `commonjs node:m`. */
  lemma EdgePolyfills()
    ensures Polyfills(SUPPORTED_NATIVE_MODULES).Keys == EDGE_POLYFILL_KEYS
    ensures var p := Polyfills(SUPPORTED_NATIVE_MODULES);
      forall i :: 0 <= i < |SUPPORTED_NATIVE_MODULES| ==>
        var m := SUPPORTED_NATIVE_MODULES[i];
        m in p && "node:" + m in p && p[m] == p["node:" + m] == NodeExternal(m)
  {
    var mods := SUPPORTED_NATIVE_MODULES;
    PolyfillsKeys(mods);
    SupportedSpellings();
    forall i | 0 <= i < |mods| ensures |mods[i]| < 5 || mods[i][..5] != "node:" {
      assert mods[i][0] != 'n';
    }
    PolyfillsValues(mods);
  }

  /** Ten distinct keys. */
  lemma EdgePolyfillsSize()
    ensures |Polyfills(SUPPORTED_NATIVE_MODULES).Keys| == 10
  {
    EdgePolyfills();
    var inner: set<string> := {"buffer", "events", "assert", "util", "async_hooks"};
    assert |inner| == 5;
    var prefixed: set<string> := {"node:buffer", "node:events", "node:assert", "node:util", "node:async_hooks"};
    assert |prefixed| == 5;
    assert inner * prefixed == {} by {
      forall k | k in inner ensures k !in prefixed { }
    }
    assert EDGE_POLYFILL_KEYS == inner + prefixed;
  }

  /** The choice `apply` makes from the compiler type (lines 51-76): the
      external type, then the externals list. */
  function SelectExternals(compilerType: string): (r: (string, seq<ExternalItem>))
  {
    var isClient := compilerType == "client";
    var isEdgeServer := compilerType == "edge-server";
    var externalType := if isClient || isEdgeServer then "assign" else "commonjs2";
    var externals :=
      if isClient || isEdgeServer then
        if isEdgeServer then
          [Name("next"),
           Object(map["@builder.io/partytown" := StringValue("{}"), "next/dist/compiled/etag" := StringValue("{}")]),
           Object(Polyfills(SUPPORTED_NATIVE_MODULES))]
        else [Name("next")]
      else [];
    (externalType, externals)
  }

  /** The browser and edge compilers assign externals to globals and list
      `next` first; the edge compiler then maps partytown and etag to the
      empty-object expression `{}` and adds the native-module polyfills;
      every other compiler type, the Node.js server among them, uses
      CommonJS and lists nothing. */
  lemma SelectExternalsByCompiler(compilerType: string)
    ensures var (externalType, externals) := SelectExternals(compilerType);
      && (externalType == "assign" <==> compilerType in {"client", "edge-server"})
      && (externalType != "assign" ==> externalType == "commonjs2")
      && (|externals| > 0 <==> externalType == "assign")
      && (|externals| > 0 ==> externals[0] == Name("next"))
      && (compilerType == "client" ==> externals == [Name("next")])
      && (compilerType == "edge-server" ==>
            && |externals| == 3
            && externals[1] == Object(map["@builder.io/partytown" := StringValue("{}"),
                                          "next/dist/compiled/etag" := StringValue("{}")])
            && externals[2] == Object(Polyfills(SUPPORTED_NATIVE_MODULES)))
  {
  }
}
