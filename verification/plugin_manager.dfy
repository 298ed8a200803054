/**
 * `PluginManager`: loads converter plugins from entry points and from the
 * plugin directory, keeps the loaded converters and a registry describing
 * each, and reloads, looks up and unloads them.
 *
 * Discovery is given as data: the entry points the scan yielded (a scan
 * that fails partway yielded only those before the failure), and the
 * plugin directory's files in glob order, each with the outcome of
 * importing it and the module's attributes in `dir` order. Instantiating a
 * class either gives a converter object or raises.
 */
module PluginManager {
  import opened Wrappers
  import opened Strings
  import opened Dicts
  import opened Registry
  import BaseConverter

  // ================================================================ what discovery finds

  /**
   * A class an entry point loaded: whether it subclasses `DocumentConverter`,
   * and the object `converter_class()` returns, `None` when it raises.
   */
  datatype LoadedClass = LoadedClass(name: string, moduleName: string, isConverter: bool, instance: Option<Converter>)

  /** An entry point of the group `markitdown_mcp_converters`; `load` is `None` when `entry_point.load()` raises. */
  datatype EntryPoint = EntryPoint(name: string, load: Option<LoadedClass>)

  /**
   * A module attribute: whether it is a class, a `DocumentConverter`
   * subclass, the base class itself, and what instantiating it gives.
   */
  datatype Attribute = Attribute(name: string, isClass: bool, isConverter: bool, isBase: bool, instance: Option<Converter>)

  /** A `*.py` file of the plugin directory; `attributes` is `None` when importing it raises. */
  datatype PluginFile = PluginFile(name: string, stem: string, path: string, attributes: Option<seq<Attribute>>)

  /** `'type'` of a registry entry; a file plugin also records its file. */
  datatype PluginType = EntryPointPlugin | FilePlugin(file: string)

  /** A `plugin_registry` value. */
  datatype PluginInfo = PluginInfo(name: string, className: string, moduleName: string, pluginType: PluginType, converter: Converter)

  // ================================================================ entry-point plugins

  /** The converter an entry point contributes: one that loads, subclasses `DocumentConverter` and instantiates. */
  function EntryInstance(e: EntryPoint): Option<Converter>
  {
    if e.load.Some? && e.load.value.isConverter then e.load.value.instance else None
  }

  /** The registry entry of an entry point that contributes a converter. */
  function EntryInfo(e: EntryPoint): PluginInfo
    requires EntryInstance(e).Some?
  {
    PluginInfo(e.name, e.load.value.name, e.load.value.moduleName, EntryPointPlugin, EntryInstance(e).value)
  }

  /** `_load_entry_point_plugins`' list: the contributed converters, in scan order. */
  function EntryPlugins(entries: seq<EntryPoint>): seq<Converter>
    decreases |entries|
  {
    if entries == [] then []
    else
      (if EntryInstance(entries[0]).Some? then [EntryInstance(entries[0]).value] else [])
      + EntryPlugins(entries[1..])
  }

  /** The registry after the entry points, each contributing entry recorded under its name. */
  function EntryRegistry(registry: Dict<string, PluginInfo>, entries: seq<EntryPoint>): Dict<string, PluginInfo>
    decreases |entries|
  {
    if entries == [] then registry
    else
      var e := entries[0];
      EntryRegistry(if EntryInstance(e).Some? then Set(registry, e.name, EntryInfo(e)) else registry, entries[1..])
  }

  /** The entry-point plugins are exactly the converters of the entry points that load, subclass and instantiate. */
  lemma {:induction false} EntryPluginsExactly(entries: seq<EntryPoint>, c: Converter)
    ensures c in EntryPlugins(entries) <==> exists i :: 0 <= i < |entries| && EntryInstance(entries[i]) == Some(c)
    decreases |entries|
  {
    if entries != [] {
      EntryPluginsExactly(entries[1..], c);
      if exists i :: 0 <= i < |entries[1..]| && EntryInstance(entries[1..][i]) == Some(c) {
        var i :| 0 <= i < |entries[1..]| && EntryInstance(entries[1..][i]) == Some(c);
        assert EntryInstance(entries[i + 1]) == Some(c);
      }
      if exists i :: 0 <= i < |entries| && EntryInstance(entries[i]) == Some(c) {
        var i :| 0 <= i < |entries| && EntryInstance(entries[i]) == Some(c);
        if i > 0 {
          assert EntryInstance(entries[1..][i - 1]) == Some(c);
        }
      }
    }
  }

  /** The plugins of a concatenation of scans are the plugins of each, in order. */
  lemma {:induction false} EntryPluginsAppend(a: seq<EntryPoint>, b: seq<EntryPoint>)
    ensures EntryPlugins(a + b) == EntryPlugins(a) + EntryPlugins(b)
    decreases |a|
  {
    if a == [] {
      assert a + b == b;
    } else {
      var head := if EntryInstance(a[0]).Some? then [EntryInstance(a[0]).value] else [];
      calc {
        EntryPlugins(a + b);
      == { assert (a + b)[0] == a[0]; assert (a + b)[1..] == a[1..] + b; }
        head + EntryPlugins(a[1..] + b);
      == { EntryPluginsAppend(a[1..], b); }
        head + (EntryPlugins(a[1..]) + EntryPlugins(b));
      ==
        EntryPlugins(a) + EntryPlugins(b);
      }
    }
  }

  /**
   * An entry point that fails to load, is not a converter class or fails to
   * instantiate is skipped: the others load as if it were absent.
   */
  lemma EntryFailureSkipped(pre: seq<EntryPoint>, e: EntryPoint, post: seq<EntryPoint>)
    requires EntryInstance(e).None?
    ensures EntryPlugins(pre + [e] + post) == EntryPlugins(pre) + EntryPlugins(post)
  {
    calc {
      EntryPlugins(pre + [e] + post);
    == { EntryPluginsAppend(pre + [e], post); }
      EntryPlugins(pre + [e]) + EntryPlugins(post);
    == { EntryPluginsAppend(pre, [e]); assert [e][1..] == []; }
      EntryPlugins(pre) + EntryPlugins(post);
    }
  }

  // ================================================================ file plugins

  /** The module `_load_file_plugins` imports for a file. */
  function ModuleName(f: PluginFile): string
  {
    "markitdown_mcp_enhanced.plugins.converters." + f.stem
  }

  /** `isinstance(attr, type) and issubclass(attr, DocumentConverter) and attr != DocumentConverter` */
  predicate Eligible(a: Attribute)
  {
    a.isClass && a.isConverter && !a.isBase
  }

  /** A file that is skipped outright: a private name, or a module that does not import. */
  predicate Skipped(f: PluginFile)
  {
    StartsWith(f.name, "_") || f.attributes.None?
  }

  /**
   * The converters one module gives: every eligible class instantiated in
   * attribute order, until an instantiation raises, which abandons the rest
   * of that module.
   */
  function AttributePlugins(attrs: seq<Attribute>): seq<Converter>
    decreases |attrs|
  {
    if attrs == [] then []
    else if !Eligible(attrs[0]) then AttributePlugins(attrs[1..])
    else if attrs[0].instance.None? then []
    else [attrs[0].instance.value] + AttributePlugins(attrs[1..])
  }

  /** The registry entry of an instantiated class of file `f`. */
  function FileInfo(f: PluginFile, a: Attribute): PluginInfo
    requires a.instance.Some?
  {
    PluginInfo(f.stem + "." + a.name, a.name, ModuleName(f), FilePlugin(f.path), a.instance.value)
  }

  /** The registry after one module, each instantiated class recorded as `stem.ClassName`. */
  function AttributeRegistry(registry: Dict<string, PluginInfo>, f: PluginFile, attrs: seq<Attribute>): Dict<string, PluginInfo>
    decreases |attrs|
  {
    if attrs == [] then registry
    else if !Eligible(attrs[0]) then AttributeRegistry(registry, f, attrs[1..])
    else if attrs[0].instance.None? then registry
    else AttributeRegistry(Set(registry, f.stem + "." + attrs[0].name, FileInfo(f, attrs[0])), f, attrs[1..])
  }

  /** `_load_file_plugins`' list over the directory's files, in glob order. */
  function FilePlugins(files: seq<PluginFile>): seq<Converter>
    decreases |files|
  {
    if files == [] then []
    else (if Skipped(files[0]) then [] else AttributePlugins(files[0].attributes.value)) + FilePlugins(files[1..])
  }

  /** The registry after the directory's files. */
  function FileRegistry(registry: Dict<string, PluginInfo>, files: seq<PluginFile>): Dict<string, PluginInfo>
    decreases |files|
  {
    if files == [] then registry
    else
      var f := files[0];
      FileRegistry(if Skipped(f) then registry else AttributeRegistry(registry, f, f.attributes.value), files[1..])
  }

  /** No file plugins when the plugin directory does not exist. */
  function DirectoryPlugins(directory: Option<seq<PluginFile>>): seq<Converter>
  {
    if directory.None? then [] else FilePlugins(directory.value)
  }

  function DirectoryRegistry(registry: Dict<string, PluginInfo>, directory: Option<seq<PluginFile>>): Dict<string, PluginInfo>
  {
    if directory.None? then registry else FileRegistry(registry, directory.value)
  }

  /**
   * Every converter a module gives comes from an eligible class, so never
   * from the base class; and an eligible class that fails to instantiate
   * ends the module's list there.
   */
  lemma {:induction false} AttributePluginsFrom(attrs: seq<Attribute>)
    ensures forall c | c in AttributePlugins(attrs) ::
      exists j :: 0 <= j < |attrs| && Eligible(attrs[j]) && !attrs[j].isBase && attrs[j].instance == Some(c)
    decreases |attrs|
  {
    if attrs != [] {
      AttributePluginsFrom(attrs[1..]);
      forall c | c in AttributePlugins(attrs[1..])
        ensures exists j :: 0 <= j < |attrs| && Eligible(attrs[j]) && attrs[j].instance == Some(c)
      {
        var j :| 0 <= j < |attrs[1..]| && Eligible(attrs[1..][j]) && attrs[1..][j].instance == Some(c);
        assert attrs[j + 1] == attrs[1..][j];
      }
    }
  }

  /** A class that raises on instantiation abandons the rest of its module: only what came before it loads. */
  lemma {:induction false} AttributeFailureStops(attrs: seq<Attribute>, j: nat)
    requires j < |attrs| && Eligible(attrs[j]) && attrs[j].instance.None?
    ensures AttributePlugins(attrs) == AttributePlugins(attrs[..j])
    decreases j
  {
    if j > 0 {
      AttributeFailureStops(attrs[1..], j - 1);
      assert attrs[1..][..j - 1] == attrs[..j][1..];
    }
  }

  /** The file plugins of two runs of files are those of each, in order. */
  lemma {:induction false} FilePluginsAppend(a: seq<PluginFile>, b: seq<PluginFile>)
    ensures FilePlugins(a + b) == FilePlugins(a) + FilePlugins(b)
    decreases |a|
  {
    if a == [] {
      assert a + b == b;
    } else {
      var head := if Skipped(a[0]) then [] else AttributePlugins(a[0].attributes.value);
      calc {
        FilePlugins(a + b);
      == { assert (a + b)[0] == a[0]; assert (a + b)[1..] == a[1..] + b; }
        head + FilePlugins(a[1..] + b);
      == { FilePluginsAppend(a[1..], b); }
        head + (FilePlugins(a[1..]) + FilePlugins(b));
      ==
        FilePlugins(a) + FilePlugins(b);
      }
    }
  }

  /** A private file or one whose import fails is skipped: the other files load as if it were absent. */
  lemma FileSkipped(pre: seq<PluginFile>, f: PluginFile, post: seq<PluginFile>)
    requires Skipped(f)
    ensures FilePlugins(pre + [f] + post) == FilePlugins(pre) + FilePlugins(post)
  {
    calc {
      FilePlugins(pre + [f] + post);
    == { FilePluginsAppend(pre + [f], post); }
      FilePlugins(pre + [f]) + FilePlugins(post);
    == { FilePluginsAppend(pre, [f]); assert [f][1..] == []; }
      FilePlugins(pre) + FilePlugins(post);
    }
  }

  // ================================================================ removal and the report

  /** `list.remove(c)` when `c` is present; the list unchanged otherwise. */
  function RemoveFirst(s: seq<Converter>, c: Converter): seq<Converter>
    decreases |s|
  {
    if s == [] then []
    else if s[0] == c then s[1..]
    else [s[0]] + RemoveFirst(s[1..], c)
  }

  /** Removing a converter that is not in the list leaves it as it was. */
  lemma {:induction false} RemoveFirstAbsent(s: seq<Converter>, c: Converter)
    requires c !in s
    ensures RemoveFirst(s, c) == s
    decreases |s|
  {
    if s != [] {
      RemoveFirstAbsent(s[1..], c);
    }
  }

  /** Removing a present converter cuts out its first occurrence. */
  lemma {:induction false} RemoveFirstPresent(s: seq<Converter>, c: Converter, k: nat)
    requires k < |s| && s[k] == c && c !in s[..k]
    ensures RemoveFirst(s, c) == s[..k] + s[k + 1..]
    decreases k
  {
    if k > 0 {
      calc {
        RemoveFirst(s, c);
      == { assert s[0] in s[..k]; }
        [s[0]] + RemoveFirst(s[1..], c);
      == { assert s[1..][..k - 1] == s[1..k]; RemoveFirstPresent(s[1..], c, k - 1); }
        [s[0]] + (s[1..k] + s[k + 1..]);
      == { assert [s[0]] + s[1..k] == s[..k]; }
        s[..k] + s[k + 1..];
      }
    }
  }

  /** Removing a present converter takes exactly one occurrence of it out. */
  lemma RemoveFirstMultiset(s: seq<Converter>, c: Converter, k: nat)
    requires k < |s| && s[k] == c && c !in s[..k]
    ensures multiset(RemoveFirst(s, c)) == multiset(s) - multiset{c}
  {
    var pre, post := s[..k], s[k + 1..];
    RemoveFirstPresent(s, c, k);
    calc {
      multiset(s) - multiset{c};
    == { assert s == pre + [c] + post; }
      multiset(pre + [c] + post) - multiset{c};
    ==
      multiset(pre) + multiset{c} + multiset(post) - multiset{c};
    ==
      multiset(pre + post);
    }
  }

  /** One plugin as `get_plugin_info` reports it; `type` is "entry_point" or "file". */
  datatype PluginSummary = PluginSummary(name: string, className: string, moduleName: string, pluginType: string,
                                         formatInfo: BaseConverter.FormatInfo)

  datatype PluginReport = PluginReport(loadedCount: nat, plugins: Dict<string, PluginSummary>)

  function Summary(info: PluginInfo, formatInfo: Converter -> BaseConverter.FormatInfo): PluginSummary
  {
    PluginSummary(info.name, info.className, info.moduleName,
                  if info.pluginType.EntryPointPlugin? then "entry_point" else "file",
                  formatInfo(info.converter))
  }

  function Summaries(registry: Dict<string, PluginInfo>, formatInfo: Converter -> BaseConverter.FormatInfo): (r: Dict<string, PluginSummary>)
    ensures |r| == |registry|
    ensures forall i :: 0 <= i < |r| ==> r[i] == (registry[i].0, Summary(registry[i].1, formatInfo))
  {
    seq(|registry|, i requires 0 <= i < |registry| => (registry[i].0, Summary(registry[i].1, formatInfo)))
  }

  // ================================================================ the manager

  class Manager {
    /** `loaded_plugins` */
    var loadedPlugins: seq<Converter>
    /** `plugin_registry` */
    var registry: Dict<string, PluginInfo>

    constructor ()
      ensures loadedPlugins == [] && registry == []
    {
      loadedPlugins := [];
      registry := [];
    }

    /**
     * `load_plugins`: the entry-point plugins, then the file plugins; the
     * loaded list becomes exactly that list, and the registry gains the
     * entries of both, in that order.
     */
    method LoadPlugins(entries: seq<EntryPoint>, directory: Option<seq<PluginFile>>) returns (plugins: seq<Converter>)
      modifies this
      ensures plugins == EntryPlugins(entries) + DirectoryPlugins(directory)
      ensures loadedPlugins == plugins
      ensures registry == DirectoryRegistry(EntryRegistry(old(registry), entries), directory)
    {
      var fromEntries := LoadEntryPointPlugins(entries);
      var fromFiles := LoadFilePlugins(directory);
      plugins := fromEntries + fromFiles;
      loadedPlugins := plugins;
    }

    /** `_load_entry_point_plugins`: each entry point in its own `try`, so a failure skips only that one. */
    method LoadEntryPointPlugins(entries: seq<EntryPoint>) returns (plugins: seq<Converter>)
      modifies this`registry
      ensures plugins == EntryPlugins(entries)
      ensures registry == EntryRegistry(old(registry), entries)
    {
      plugins := [];
      for i := 0 to |entries|
        invariant plugins + EntryPlugins(entries[i..]) == EntryPlugins(entries)
        invariant EntryRegistry(registry, entries[i..]) == EntryRegistry(old(registry), entries)
      {
        var e := entries[i];
        assert entries[i..][0] == e && entries[i..][1..] == entries[i + 1..];
        if e.load.Some? && e.load.value.isConverter && e.load.value.instance.Some? {
          var converter := e.load.value.instance.value;
          plugins := plugins + [converter];
          registry := Set(registry, e.name, PluginInfo(e.name, e.load.value.name, e.load.value.moduleName, EntryPointPlugin, converter));
        }
      }
    }

    /**
     * `_load_file_plugins`: nothing when the directory is missing; private
     * files skipped; each module in its own `try`, so a failure abandons
     * only the rest of that module.
     */
    method LoadFilePlugins(directory: Option<seq<PluginFile>>) returns (plugins: seq<Converter>)
      modifies this`registry
      ensures plugins == DirectoryPlugins(directory)
      ensures registry == DirectoryRegistry(old(registry), directory)
    {
      plugins := [];
      if directory.None? {
        return;
      }
      var files := directory.value;
      for i := 0 to |files|
        invariant plugins + FilePlugins(files[i..]) == FilePlugins(files)
        invariant FileRegistry(registry, files[i..]) == FileRegistry(old(registry), files)
      {
        var f := files[i];
        assert files[i..][0] == f && files[i..][1..] == files[i + 1..];
        if !StartsWith(f.name, "_") && f.attributes.Some? {
          var found := LoadModule(f);
          plugins := plugins + found;
        }
      }
    }

    /** The body of the per-file `try`: the module's eligible classes, instantiated and registered in order. */
    method LoadModule(f: PluginFile) returns (plugins: seq<Converter>)
      requires f.attributes.Some?
      modifies this`registry
      ensures plugins == AttributePlugins(f.attributes.value)
      ensures registry == AttributeRegistry(old(registry), f, f.attributes.value)
    {
      var attrs := f.attributes.value;
      plugins := [];
      for j := 0 to |attrs|
        invariant plugins + AttributePlugins(attrs[j..]) == AttributePlugins(attrs)
        invariant AttributeRegistry(registry, f, attrs[j..]) == AttributeRegistry(old(registry), f, attrs)
      {
        var a := attrs[j];
        assert attrs[j..][0] == a && attrs[j..][1..] == attrs[j + 1..];
        if a.isClass && a.isConverter && !a.isBase {
          if a.instance.None? {
            return;
          }
          plugins := plugins + [a.instance.value];
          registry := Set(registry, f.stem + "." + a.name, PluginInfo(f.stem + "." + a.name, a.name, ModuleName(f), FilePlugin(f.path), a.instance.value));
        }
      }
    }

    /**
     * `reload_plugins`: both the list and the registry are emptied first,
     * so what is left depends only on what discovery finds now.
     */
    method ReloadPlugins(entries: seq<EntryPoint>, directory: Option<seq<PluginFile>>) returns (plugins: seq<Converter>)
      modifies this
      ensures plugins == EntryPlugins(entries) + DirectoryPlugins(directory)
      ensures loadedPlugins == plugins
      ensures registry == DirectoryRegistry(EntryRegistry([], entries), directory)
    {
      loadedPlugins := [];
      registry := [];
      plugins := LoadPlugins(entries, directory);
    }

    /** `get_plugin_by_name`: the registered converter, `None` exactly when the name is not registered. */
    function GetPluginByName(name: string): (c: Option<Converter>)
      reads this
      ensures c.None? <==> !HasKey(registry, name)
      ensures c.Some? ==> exists i :: 0 <= i < |registry| && registry[i].0 == name && registry[i].1.converter == c.value
    {
      GetSpec(registry, name);
      var info := Get(registry, name);
      if info.Some? then Some(info.value.converter) else None
    }

    /**
     * `unload_plugin`: an unknown name changes nothing and gives false; a
     * known one leaves the registry and takes its converter out of the
     * loaded list (its first occurrence, if any), and gives true.
     */
    method UnloadPlugin(name: string) returns (removed: bool)
      modifies this
      ensures removed <==> HasKey(old(registry), name)
      ensures !removed ==> registry == old(registry) && loadedPlugins == old(loadedPlugins)
      ensures removed ==>
        (Get(old(registry), name).Some? && registry == Remove(old(registry), name)
         && loadedPlugins == RemoveFirst(old(loadedPlugins), Get(old(registry), name).value.converter))
    {
      GetSpec(registry, name);
      if !HasKey(registry, name) {
        return false;
      }
      var converter := Get(registry, name).value.converter;
      registry := Remove(registry, name);
      if converter !in loadedPlugins {
        RemoveFirstAbsent(loadedPlugins, converter);
      } else {
        loadedPlugins := RemoveFirst(loadedPlugins, converter);
      }
      return true;
    }

    /** `get_plugin_info`: the number of loaded converters and a summary per registry entry, in registry order. */
    function GetPluginInfo(formatInfo: Converter -> BaseConverter.FormatInfo): (r: PluginReport)
      reads this
      ensures r.loadedCount == |loadedPlugins|
      ensures Keys(r.plugins) == Keys(registry)
      ensures forall i :: 0 <= i < |registry| ==>
        (r.plugins[i].1.name == registry[i].1.name && r.plugins[i].1.formatInfo == formatInfo(registry[i].1.converter))
    {
      PluginReport(|loadedPlugins|, Summaries(registry, formatInfo))
    }
  }

  /** After unloading a name, it looks up nothing and every other name looks up what it did. */
  lemma UnloadForgets(registry: Dict<string, PluginInfo>, name: string, other: string)
    ensures Get(Remove(registry, name), name).None?
    ensures other != name ==> Get(Remove(registry, name), other) == Get(registry, other)
  {
    RemoveGet(registry, name, name);
    RemoveGet(registry, name, other);
  }
}
