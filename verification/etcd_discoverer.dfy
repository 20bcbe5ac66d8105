/** The etcd-backed discoverer's path helpers and its record of the instances it has
    registered. The etcd client is an oracle: the model takes its answers as inputs and
    reports the keys it would delete. */
module EtcdDiscoverer {
  import opened Wrappers
  import opened DiscoveryApi

  /** Prefix for all etcd paths. */
  const PATH_PREFIX: string := "/"

  /** String.join(separator, parts). */
  function Join(separator: string, parts: seq<string>): (s: string)
    ensures parts == [] ==> s == ""
    ensures |parts| == 1 ==> s == parts[0]
    decreases |parts|
  {
    if parts == [] then ""
    else if |parts| == 1 then parts[0]
    else parts[0] + separator + Join(separator, parts[1..])
  }

  /** buildPath(segments...): the prefix followed by the segments joined with "/". */
  function BuildPath(segments: seq<string>): (p: string)
    ensures |p| >= 1 && p[0] == '/'
    ensures p[1..] == Join("/", segments)
  {
    PATH_PREFIX + Join("/", segments)
  }

  /** buildInstancePath: the path /type/group/name. */
  function BuildInstancePath(i: Instance): (p: string)
    ensures p == "/" + i.kind + "/" + i.group + "/" + i.name
  {
    assert Join("/", [i.kind, i.group, i.name]) == i.kind + "/" + (i.group + "/" + i.name) by {
      assert [i.kind, i.group, i.name][1..] == [i.group, i.name];
      assert [i.group, i.name][1..] == [i.name];
    }
    BuildPath([i.kind, i.group, i.name])
  }

  /** String.lastIndexOf: the last position holding `c`, or -1. */
  function LastIndexOf(s: string, c: char): (k: int)
    ensures -1 <= k < |s|
    ensures k >= 0 ==> s[k] == c
    ensures forall j :: k < j < |s| ==> s[j] != c
    decreases |s|
  {
    if s == [] then -1
    else if s[|s| - 1] == c then |s| - 1
    else LastIndexOf(s[..|s| - 1], c)
  }

  /** getDirName: the substring from the last "/" on, the "/" included; the whole string
      when it holds no "/". */
  function GetDirName(path: string): (r: string)
    ensures |r| <= |path| && r == path[|path| - |r|..]
    ensures '/' !in path ==> r == path
    ensures '/' in path ==> |r| >= 1 && r[0] == '/'
    ensures forall j :: 0 < j < |r| ==> r[j] != '/'
  {
    var k := LastIndexOf(path, '/');
    var start := if k > 0 then k else 0;
    assert '/' in path ==> k >= 0 by {
      if '/' in path {
        var j :| 0 <= j < |path| && path[j] == '/';
      }
    }
    path[start..]
  }

  /** getDirName is idempotent: its result already is a last segment. */
  lemma GetDirNameIdempotent(path: string)
    ensures GetDirName(GetDirName(path)) == GetDirName(path)
  {
    var r := GetDirName(path);
    if '/' in r {
      var k := LastIndexOf(r, '/');
      assert k == 0;
    }
  }

  /** The last "/" of `prefix + "/" + segment` is the one just before the segment when the
      segment holds none. */
  lemma {:induction false} LastSlashBeforeSegment(prefix: string, segment: string)
    requires '/' !in segment
    ensures LastIndexOf(prefix + "/" + segment, '/') == |prefix|
  {
    var p := prefix + "/" + segment;
    var k := LastIndexOf(p, '/');
    assert p[|prefix|] == '/';
    forall j | |prefix| < j < |p|
      ensures p[j] != '/'
    {
      assert p[j] == segment[j - |prefix| - 1];
    }
  }

  /** For an instance path, getDirName gives the last segment WITH its leading "/"
      (not the bare segment the method's documentation describes), provided the name holds
      no "/" itself. */
  lemma GetDirNameOfInstancePath(i: Instance)
    requires '/' !in i.name
    ensures GetDirName(BuildInstancePath(i)) == "/" + i.name
  {
    var prefix := "/" + i.kind + "/" + i.group;
    var p := BuildInstancePath(i);
    assert p == prefix + "/" + i.name;
    LastSlashBeforeSegment(prefix, i.name);
    assert p[|prefix|..] == "/" + i.name;
  }

  // ---------------------------------------------------------------- registration

  /** The exception, if any, that the putDir promise for a new instance directory carries. */
  datatype PutAnswer = PutOk | PutNodeExist | PutOtherError

  /** myInstances: each registered instance with the key of its discoverable-config
      entry, or None (null). */
  type Registry = map<Instance, Option<string>>

  /** register: a NodeExist error is a DuplicateName, any other error an IOException, and
      only an error-free put records the instance. A config-discoverable instance already
      recorded keeps its key; a new one gets the key etcd assigns to its post
      (`postedKey`); other instances record None. */
  function Register(my: Registry, i: Instance, answer: PutAnswer, postedKey: string)
    : (r: Result<Registry, RegisterError>)
    ensures answer == PutNodeExist ==> r == Failure(DuplicateName)
    ensures answer == PutOtherError ==> r == Failure(IOException)
    ensures answer == PutOk ==> r.Success? && r.value.Keys == my.Keys + {i}
    ensures r.Success? ==> forall j :: j in my && j != i ==> r.value[j] == my[j]
    ensures r.Success? && !i.configDiscoverable ==> r.value[i] == None
    ensures r.Success? && i.configDiscoverable && i in my ==> r.value[i] == my[i]
    ensures r.Success? && i.configDiscoverable && i !in my ==> r.value[i] == Some(postedKey)
  {
    match answer
    case PutNodeExist => Failure(DuplicateName)
    case PutOtherError => Failure(IOException)
    case PutOk =>
      var discoverablePath := if !i.configDiscoverable then None
                              else if i in my then my[i]
                              else Some(postedKey);
      Success(my[i := discoverablePath])
  }

  /** Whether unregister first deletes a discoverable-config key: only for a
      config-discoverable instance recorded with one. */
  predicate HasConfigKey(my: Registry, i: Instance) {
    i.configDiscoverable && i in my && my[i].Some?
  }

  /** unregister: delete the discoverable-config key when there is one, then the instance
      directory, then drop the instance from the record. Each delete may throw an
      IOException (`configDeleteOk`, `dirDeleteOk` say whether it succeeds); a throw ends
      the call before the record changes. The result is the record after the call, the
      keys whose deletion was sent in order, and the exception thrown, if any. */
  function Unregister(my: Registry, i: Instance, configDeleteOk: bool, dirDeleteOk: bool)
    : (r: (Registry, seq<string>, Option<RegisterError>))
    ensures r.2.None? <==> (!HasConfigKey(my, i) || configDeleteOk) && dirDeleteOk
    ensures r.2.Some? ==> r.2 == Some(IOException) && r.0 == my
    ensures r.2.None? ==> r.0.Keys == my.Keys - {i} && forall j :: j in r.0 ==> r.0[j] == my[j]
    ensures 1 <= |r.1| <= 2
    ensures !HasConfigKey(my, i) ==> r.1 == [BuildInstancePath(i)]
    ensures HasConfigKey(my, i) ==> r.1[0] == my[i].value
    ensures HasConfigKey(my, i) && !configDeleteOk ==> r.1 == [my[i].value]
    ensures HasConfigKey(my, i) && configDeleteOk ==> r.1 == [my[i].value, BuildInstancePath(i)]
  {
    var discoverablePath := if i in my then my[i] else None;
    if i.configDiscoverable && discoverablePath.Some? then
      if !configDeleteOk then (my, [discoverablePath.value], Some(IOException))
      else if !dirDeleteOk then (my, [discoverablePath.value, BuildInstancePath(i)], Some(IOException))
      else (my - {i}, [discoverablePath.value, BuildInstancePath(i)], None)
    else if !dirDeleteOk then (my, [BuildInstancePath(i)], Some(IOException))
    else (my - {i}, [BuildInstancePath(i)], None)
  }

  /** Registering a new instance and unregistering it with both deletes succeeding restores
      the record, and the deletion covers the config key the registration recorded. */
  lemma RegisterThenUnregister(my: Registry, i: Instance, postedKey: string)
    requires i !in my
    ensures var reg := Register(my, i, PutOk, postedKey).value;
            var (back, deletes, error) := Unregister(reg, i, true, true);
            back == my && error == None
            && (i.configDiscoverable ==> deletes == [postedKey, BuildInstancePath(i)])
            && (!i.configDiscoverable ==> deletes == [BuildInstancePath(i)])
  {
    var reg := Register(my, i, PutOk, postedKey).value;
    assert Unregister(reg, i, true, true).0 == my;
  }
}
