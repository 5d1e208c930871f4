/** The recent-servers store: a most-recent-first list of saved connection
    profiles, keyed by their `name`, holding at most ten of them, and the
    recall of one of them into the connection form. */
module Profiles {
  import opened Descriptors

  datatype Option<T> = None | Some(value: T)

  /** A value of a profile as read back from the JSON file: a string, a
      boolean, or anything else. */
  datatype JsonValue = JString(text: string) | JBool(flag: bool) | JOther

  /** One profile: a JSON object. Profiles this program writes hold the keys
      of `ProfileKeys`; ones read back from the file may hold any keys. */
  type Profile = map<string, JsonValue>

  /** How many profiles the store keeps. */
  const Capacity: nat := 10

  const ProfileKeys: set<string> := {"name", "server", "port", "username", "auth_method", "key_file",
                                     "remote_dir", "local_dir", "additional_options", "allow_other"}

  /** `f"{username}@{server}"` from the raw, unstripped fields. */
  function ProfileName(d: Descriptor): string {
    d.username + "@" + d.server
  }

  /** The profile saved for `d`: every field as typed, without stripping. */
  function ProfileOf(d: Descriptor): Profile {
    map["name" := JString(ProfileName(d)),
        "server" := JString(d.server),
        "port" := JString(d.port),
        "username" := JString(d.username),
        "auth_method" := JString(d.authMethod),
        "key_file" := JString(d.keyFile),
        "remote_dir" := JString(d.remoteDir),
        "local_dir" := JString(d.localDir),
        "additional_options" := JString(d.additionalOptions),
        "allow_other" := JBool(d.allowOther)]
  }

  /** A saved profile holds exactly the ten keys, never the password, and
      is named by the unstripped username and server. */
  lemma SavedProfileShape(d: Descriptor)
    ensures ProfileOf(d).Keys == ProfileKeys
    ensures "password" !in ProfileOf(d)
    ensures ProfileOf(d)["name"] == JString(d.username + "@" + d.server)
  {
  }

  /** `p.get("name") == name`: `p` is stored under that name. An entry
      without a name, or with one that is not a string, is under no name. */
  predicate HasName(p: Profile, name: string) {
    "name" in p && p["name"] == JString(name)
  }

  /** The profile saved for `d` is stored under exactly one name. */
  lemma ProfileOfName(d: Descriptor, name: string)
    ensures HasName(ProfileOf(d), name) <==> name == ProfileName(d)
  {
  }

  /** `[p for p in s if p.get("name") != name]`: the entries not stored under
      `name`, and no other. */
  function WithoutName(s: seq<Profile>, name: string): (r: seq<Profile>)
    ensures |r| <= |s|
    ensures forall p :: p in r <==> p in s && !HasName(p, name)
  {
    if s == [] then []
    else
      var init, last := WithoutName(s[..|s| - 1], name), s[|s| - 1];
      assert s == s[..|s| - 1] + [last];
      if HasName(last, name) then init else init + [last]
  }

  /** The filter works entry by entry and keeps the order of what it keeps:
      filtering a concatenation concatenates the filtered parts. */
  lemma {:induction false} WithoutNameAppend(a: seq<Profile>, b: seq<Profile>, name: string)
    ensures WithoutName(a + b, name) == WithoutName(a, name) + WithoutName(b, name)
    decreases |b|
  {
    if b == [] {
      assert a + b == a;
    } else {
      var b0 := b[..|b| - 1];
      assert (a + b)[..|a + b| - 1] == a + b0;
      WithoutNameAppend(a, b0, name);
    }
  }

  /** A list holding no entry of that name passes the filter unchanged. */
  lemma {:induction false} WithoutNameUnchanged(s: seq<Profile>, name: string)
    requires forall i :: 0 <= i < |s| ==> !HasName(s[i], name)
    ensures WithoutName(s, name) == s
  {
    if s != [] {
      var init := s[..|s| - 1];
      assert forall i :: 0 <= i < |init| ==> init[i] == s[i];
      WithoutNameUnchanged(init, name);
      assert !HasName(s[|s| - 1], name);
      assert s == init + [s[|s| - 1]];
    }
  }

  /** Python's `s[:n]`. */
  function Take(s: seq<Profile>, n: nat): (r: seq<Profile>)
    ensures |r| == if |s| <= n then |s| else n
    ensures r == s[..|r|]
  {
    if |s| <= n then s else s[..n]
  }

  /** The list after saving `d`: the new profile first, then the earlier
      entries not stored under its name, in their order, cut to ten. */
  function Upsert(s: seq<Profile>, d: Descriptor): (r: seq<Profile>)
    ensures 1 <= |r| <= Capacity
    ensures r[0] == ProfileOf(d)
    ensures forall i :: 1 <= i < |r| ==> r[i] in s && !HasName(r[i], ProfileName(d))
    ensures r[1..] == Take(WithoutName(s, ProfileName(d)), Capacity - 1)
  {
    var kept := WithoutName(s, ProfileName(d));
    var r := Take([ProfileOf(d)] + kept, Capacity);
    assert forall i :: 1 <= i < |r| ==> r[i] == kept[i - 1];
    r
  }

  /** Saving the same form twice leaves the list as saving it once. */
  lemma UpsertIdempotent(s: seq<Profile>, d: Descriptor)
    ensures Upsert(Upsert(s, d), d) == Upsert(s, d)
  {
    var r, name := Upsert(s, d), ProfileName(d);
    ProfileOfName(d, name);
    WithoutNameUnchanged(r[1..], name);
    assert r == [r[0]] + r[1..];
    WithoutNameAppend([r[0]], r[1..], name);
    assert WithoutName([r[0]], name) == [];
  }

  /** No two entries carry the same name. */
  predicate DistinctNames(s: seq<Profile>) {
    forall i, j :: 0 <= i < j < |s| && "name" in s[i] && "name" in s[j] ==> s[i]["name"] != s[j]["name"]
  }

  lemma {:induction false} WithoutNameKeepsNamesDistinct(s: seq<Profile>, name: string)
    requires DistinctNames(s)
    ensures DistinctNames(WithoutName(s, name))
  {
    if s != [] {
      var init, last := s[..|s| - 1], s[|s| - 1];
      WithoutNameKeepsNamesDistinct(init, name);
      var w := WithoutName(init, name);
      forall i | 0 <= i < |w| && "name" in w[i] && "name" in last
        ensures w[i]["name"] != last["name"]
      {
        assert w[i] in init;
        var k :| 0 <= k < |init| && init[k] == w[i];
        assert s[k] == init[k];
      }
    }
  }

  /** Saving keeps names distinct: the new entry's name is on no other entry,
      and the filter keeps distinct names distinct. */
  lemma UpsertKeepsNamesDistinct(s: seq<Profile>, d: Descriptor)
    requires DistinctNames(s)
    ensures DistinctNames(Upsert(s, d))
  {
    var r, name := Upsert(s, d), ProfileName(d);
    WithoutNameKeepsNamesDistinct(s, name);
    var kept := WithoutName(s, name);
    forall i, j | 0 <= i < j < |r| && "name" in r[i] && "name" in r[j]
      ensures r[i]["name"] != r[j]["name"]
    {
      if i == 0 {
        assert !HasName(r[j], name);
      } else {
        assert r[i] == kept[i - 1] && r[j] == kept[j - 1];
      }
    }
  }

  /** The list after saving each of `ds` in turn, starting from `s`. */
  function SaveAll(s: seq<Profile>, ds: seq<Descriptor>): seq<Profile> {
    if ds == [] then s else Upsert(SaveAll(s, ds[..|ds| - 1]), ds[|ds| - 1])
  }

  predicate DistinctProfileNames(ds: seq<Descriptor>) {
    forall i, j :: 0 <= i < j < |ds| ==> ProfileName(ds[i]) != ProfileName(ds[j])
  }

  /** Saving forms under distinct names into an empty store keeps the ten
      most recent, newest first. */
  lemma {:induction false} MostRecentFirst(ds: seq<Descriptor>)
    requires DistinctProfileNames(ds)
    ensures var r := SaveAll([], ds);
      && |r| == (if |ds| <= Capacity then |ds| else Capacity)
      && forall k :: 0 <= k < |r| ==> r[k] == ProfileOf(ds[|ds| - 1 - k])
  {
    if ds != [] {
      var init, d := ds[..|ds| - 1], ds[|ds| - 1];
      var name := ProfileName(d);
      assert DistinctProfileNames(init) by {
        forall i, j | 0 <= i < j < |init| ensures ProfileName(init[i]) != ProfileName(init[j]) {
          assert init[i] == ds[i] && init[j] == ds[j];
        }
      }
      MostRecentFirst(init);
      var prev := SaveAll([], init);
      InitIndex(ds, init, prev);
      forall i | 0 <= i < |prev| ensures !HasName(prev[i], name) {
        ProfileOfName(ds[|ds| - 2 - i], name);
      }
      UpsertFresh(prev, d);
      PrependNewest(ds, prev);
    }
  }

  lemma InitIndex(ds: seq<Descriptor>, init: seq<Descriptor>, prev: seq<Profile>)
    requires |ds| >= 1 && init == ds[..|ds| - 1] && |prev| <= |init|
    requires forall k :: 0 <= k < |prev| ==> prev[k] == ProfileOf(init[|init| - 1 - k])
    ensures forall k :: 0 <= k < |prev| ==> prev[k] == ProfileOf(ds[|ds| - 2 - k])
  {
  }

  /** Saving under a name no entry carries only prepends and truncates. */
  lemma UpsertFresh(s: seq<Profile>, d: Descriptor)
    requires forall i :: 0 <= i < |s| ==> !HasName(s[i], ProfileName(d))
    ensures Upsert(s, d) == Take([ProfileOf(d)] + s, Capacity)
  {
    WithoutNameUnchanged(s, ProfileName(d));
  }

  lemma PrependNewest(ds: seq<Descriptor>, prev: seq<Profile>)
    requires |ds| >= 1
    requires |prev| == if |ds| - 1 <= Capacity then |ds| - 1 else Capacity
    requires forall k :: 0 <= k < |prev| ==> prev[k] == ProfileOf(ds[|ds| - 2 - k])
    ensures var r := Take([ProfileOf(ds[|ds| - 1])] + prev, Capacity);
      && |r| == (if |ds| <= Capacity then |ds| else Capacity)
      && forall k :: 0 <= k < |r| ==> r[k] == ProfileOf(ds[|ds| - 1 - k])
  {
  }

  /** The eleventh profile saved under a new name pushes out the oldest. */
  lemma EleventhSaveEvictsOldest(ds: seq<Descriptor>)
    requires |ds| == Capacity + 1 && DistinctProfileNames(ds)
    ensures |SaveAll([], ds)| == Capacity
    ensures ProfileOf(ds[0]) !in SaveAll([], ds)
  {
    MostRecentFirst(ds);
    var r := SaveAll([], ds);
    forall k | 0 <= k < |r| ensures r[k] != ProfileOf(ds[0]) {
      ProfileOfName(ds[|ds| - 1 - k], ProfileName(ds[0]));
    }
  }

  /** What recalling a profile puts into the form: the value of each key, or
      its default when the profile lacks the key. The password field is left
      as it was. */
  datatype Form = Form(server: JsonValue, port: JsonValue, username: JsonValue, authMethod: JsonValue,
                       keyFile: JsonValue, remoteDir: JsonValue, localDir: JsonValue,
                       additionalOptions: JsonValue, allowOther: JsonValue)

  /** Python's `p.get(key, default)`. */
  function Get(p: Profile, key: string, default: JsonValue): (v: JsonValue)
    ensures key in p ==> v == p[key]
    ensures key !in p ==> v == default
  {
    if key in p then p[key] else default
  }

  /** The form values of one profile, with the defaults of a missing key:
      "22" for the port, "/" for the remote directory, "password" for the
      authentication method, false for allow_other, and "" elsewhere. */
  function FormFrom(p: Profile): Form {
    Form(Get(p, "server", JString("")),
         Get(p, "port", JString("22")),
         Get(p, "username", JString("")),
         Get(p, "auth_method", JString("password")),
         Get(p, "key_file", JString("")),
         Get(p, "remote_dir", JString("/")),
         Get(p, "local_dir", JString("")),
         Get(p, "additional_options", JString("")),
         Get(p, "allow_other", JBool(false)))
  }

  /** Recalling the entry at the first selected index of the list; nothing
      happens without a selection or when the index is past the end. */
  function LoadRecentServer(servers: seq<Profile>, selection: seq<nat>): (r: Option<Form>)
    ensures r.Some? <==> selection != [] && selection[0] < |servers|
    ensures r.Some? ==> r.value == FormFrom(servers[selection[0]])
  {
    if selection != [] && selection[0] < |servers| then Some(FormFrom(servers[selection[0]])) else None
  }

  /** The form as the user filled it in, as the store would give it back. */
  function FormOf(d: Descriptor): Form {
    Form(JString(d.server), JString(d.port), JString(d.username), JString(d.authMethod),
         JString(d.keyFile), JString(d.remoteDir), JString(d.localDir),
         JString(d.additionalOptions), JBool(d.allowOther))
  }

  /** Recalling the first entry right after a save gives back every field
      of the form that was saved (all but the password). */
  lemma LoadAfterSave(s: seq<Profile>, d: Descriptor)
    ensures LoadRecentServer(Upsert(s, d), [0]) == Some(FormOf(d))
  {
  }

  /** A saved profile holds every key the recall reads, with the value the
      form had. */
  lemma RecallOfSaved(d: Descriptor)
    ensures FormFrom(ProfileOf(d)) == FormOf(d)
  {
  }

  /** Recalling the k-th entry after saves under distinct names gives back
      the form saved k saves before the last. */
  lemma LoadAfterSaves(ds: seq<Descriptor>, k: nat)
    requires DistinctProfileNames(ds) && k < |ds| && k < Capacity
    ensures LoadRecentServer(SaveAll([], ds), [k]) == Some(FormOf(ds[|ds| - 1 - k]))
  {
    MostRecentFirst(ds);
    LoadSaved(SaveAll([], ds), k, ds[|ds| - 1 - k]);
  }

  lemma LoadSaved(r: seq<Profile>, k: nat, d: Descriptor)
    requires k < |r| && r[k] == ProfileOf(d)
    ensures LoadRecentServer(r, [k]) == Some(FormOf(d))
  {
  }

  /** A profile with none of the keys recalls the defaults. */
  lemma LoadOfEmptyProfile()
    ensures LoadRecentServer([map[]], [0])
         == Some(Form(JString(""), JString("22"), JString(""), JString("password"), JString(""),
                      JString("/"), JString(""), JString(""), JBool(false)))
  {
  }

  /** The store of recent servers the GUI keeps in memory. */
  class RecentServers {
    var servers: seq<Profile>

    /** Starts from the list read from the configuration file, or from an
        empty list when there is no file or it cannot be read. */
    constructor (stored: Option<seq<Profile>>)
      ensures servers == if stored.Some? then stored.value else []
    {
      servers := if stored.Some? then stored.value else [];
    }

    /** Saves the form: drops every entry of the same name, puts the new
        profile first and keeps the first ten. */
    method SaveToRecentServers(d: Descriptor)
      modifies this
      ensures servers == Upsert(old(servers), d)
    {
      var config := ProfileOf(d);
      var name := ProfileName(d);
      var kept: seq<Profile> := [];
      for i := 0 to |servers|
        invariant kept == WithoutName(servers[..i], name)
      {
        assert servers[..i + 1][..i] == servers[..i];
        if !HasName(servers[i], name) {
          kept := kept + [servers[i]];
        }
      }
      assert servers[..|servers|] == servers;
      servers := kept;
      servers := [config] + servers;
      servers := Take(servers, Capacity);
    }
  }
}
