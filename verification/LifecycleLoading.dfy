/** Exactly what LoadAll adds to the plugin table. */
module LifecycleLoading {
  import opened Wrappers
  import opened Lifecycle

  /** Entry `i` is reached, as every enabled-query up to it is answered, and puts a plugin of the name into a table without one. */
  ghost predicate Admitted(entries: seq<Entry>, i: nat, name: string) {
    && i < |entries| && (forall j :: 0 <= j <= i ==> entries[j].enabled.Some?)
    && entries[i].manifest.name == name && entries[i].enabled == Some(true)
    && (entries[i].loads || entries[i].manifest.engine in {"", "native", "l1"})
  }

  ghost predicate FirstAdmitted(entries: seq<Entry>, i: nat, name: string) {
    Admitted(entries, i, name) && forall j :: 0 <= j < i ==> !Admitted(entries, j, name)
  }

  /** What is recorded of an entry: registered if it loads, failed without a plugin object if not. */
  function Recorded(e: Entry): Info {
    if e.loads then Info(true, e.manifest, Registered, NoError) else Info(false, e.manifest, Failed, LoadFailed)
  }

  lemma AdmittedTail(entries: seq<Entry>, i: nat, name: string)
    requires entries != [] && entries[0].enabled.Some?
    ensures Admitted(entries, i + 1, name) <==> Admitted(entries[1..], i, name)
  {
    var t := entries[1..];
    if i < |t| {
      assert t[i] == entries[i + 1];
      if Admitted(t, i, name) {
        forall j | 0 <= j <= i + 1 ensures entries[j].enabled.Some? { if j > 0 { assert t[j - 1].enabled.Some?; } }
      }
      if Admitted(entries, i + 1, name) {
        forall j | 0 <= j <= i ensures t[j].enabled.Some? { assert entries[j + 1].enabled.Some?; }
      }
    }
  }

  lemma LoadOneExact(plugins: Plugins, e: Entry, name: string)
    requires e.enabled.Some?
    ensures var now, one := LoadOne(plugins, e), [e];
            && (name in plugins ==> name in now && now[name] == plugins[name])
            && (name !in plugins ==> (name in now <==> Admitted(one, 0, name)))
            && (name !in plugins && name in now ==> now[name] == Recorded(e))
  {}

  lemma AdmittedHere(entries: seq<Entry>, name: string)
    requires entries != []
    ensures Admitted([entries[0]], 0, name) <==> Admitted(entries, 0, name)
  {}

  /**
   Loading leaves what was in the table alone. A new name is in the table afterwards exactly when some entry of that name is
   reached, enabled, and loads or has an in-process engine; the first such entry is what is recorded.
   */
  lemma {:induction false} LoadAllExact(plugins: Plugins, entries: seq<Entry>, name: string)
    ensures var now := LoadAll(plugins, entries);
            && (name in plugins ==> name in now && now[name] == plugins[name])
            && (name !in plugins ==> (name in now <==> exists i: nat :: Admitted(entries, i, name)))
            && (name !in plugins ==> forall i: nat :: FirstAdmitted(entries, i, name) ==> name in now && now[name] == Recorded(entries[i]))
    decreases |entries|
  {
    if entries != [] && entries[0].enabled.Some? {
      var t := entries[1..];
      var one := LoadOne(plugins, entries[0]);
      LoadOneExact(plugins, entries[0], name);
      AdmittedHere(entries, name);
      LoadAllExact(one, t, name);
      hide LoadOne, LoadAll, Admitted;
      assert LoadAll(plugins, entries) == LoadAll(one, t) by { LoadUnfold(plugins, entries); }
      forall i: nat ensures Admitted(entries, i + 1, name) <==> Admitted(t, i, name) { AdmittedTail(entries, i, name); }
      forall i: nat ensures i > 0 ==> (Admitted(entries, i, name) <==> Admitted(t, i - 1, name)) {
        if i > 0 { AdmittedTail(entries, i - 1, name); }
      }
      if name !in plugins {
        forall i: nat | FirstAdmitted(entries, i, name) ensures name in LoadAll(one, t) && LoadAll(one, t)[name] == Recorded(entries[i]) {
          AdmittedIndex(entries, i, name);
          if i > 0 {
            assert !Admitted(entries, 0, name);
            assert FirstAdmitted(t, i - 1, name) by {
              forall j: nat | j < i - 1 ensures !Admitted(t, j, name) { assert !Admitted(entries, j + 1, name); }
            }
          }
        }
      }
      if i: nat :| Admitted(t, i, name) { assert Admitted(entries, i + 1, name); }
    }
  }

  lemma AdmittedIndex(entries: seq<Entry>, i: nat, name: string)
    requires Admitted(entries, i, name)
    ensures i < |entries| && entries[i].manifest.name == name && entries[i].enabled == Some(true)
  {}

  lemma LoadUnfold(plugins: Plugins, entries: seq<Entry>)
    requires entries != [] && entries[0].enabled.Some?
    ensures LoadAll(plugins, entries) == LoadAll(LoadOne(plugins, entries[0]), entries[1..])
  {}
}
