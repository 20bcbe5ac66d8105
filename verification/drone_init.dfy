/** The drone's first component: it picks the drone's identifier from the environment and
    registers the drone in discovery under that name, renaming itself with a random suffix
    each time the name is taken. The environment, the UUID generator and the discoverer's
    answers are inputs. */
module DroneInit {
  import opened Wrappers
  import opened DiscoveryApi

  type Env = map<string, string>

  const DEFAULT_TEAM: string := "unknown_team"

  /** The component's state: its identifier and the instance it registered (null before
      a registration succeeds). */
  datatype DroneInit = DroneInit(identifier: string, registeredInstance: Option<Instance>)

  /** initIdentifier: DRONENAME, else COMPUTERNAME, else HOSTNAME, else a random UUID. */
  function InitIdentifier(env: Env, uuid: string): (id: string)
    ensures "DRONENAME" in env ==> id == env["DRONENAME"]
    ensures "DRONENAME" !in env && "COMPUTERNAME" in env ==> id == env["COMPUTERNAME"]
    ensures "DRONENAME" !in env && "COMPUTERNAME" !in env && "HOSTNAME" in env
            ==> id == env["HOSTNAME"]
    ensures id == uuid <== "DRONENAME" !in env && "COMPUTERNAME" !in env && "HOSTNAME" !in env
    ensures id in env.Values || id == uuid
  {
    if "DRONENAME" in env then env["DRONENAME"]
    else if "COMPUTERNAME" in env then env["COMPUTERNAME"]
    else if "HOSTNAME" in env then env["HOSTNAME"]
    else uuid
  }

  /** The constructor: the identifier is initialised, nothing is registered yet. */
  function NewDroneInit(env: Env, uuid: string): (d: DroneInit)
    ensures d.identifier == InitIdentifier(env, uuid) && d.registeredInstance == None
  {
    DroneInit(InitIdentifier(env, uuid), None)
  }

  /** getTeamname: DRONE_TEAM when set, else "unknown_team". */
  function GetTeamname(env: Env): (team: string)
    ensures "DRONE_TEAM" in env ==> team == env["DRONE_TEAM"]
    ensures "DRONE_TEAM" !in env ==> team == DEFAULT_TEAM
  {
    if "DRONE_TEAM" in env then env["DRONE_TEAM"] else DEFAULT_TEAM
  }

  /** The drone instance: a non-discoverable instance of type and group "drone" named
      after the drone. */
  function DroneInstance(name: string, properties: map<string, string>): (i: Instance)
    ensures i.name == name && i.properties == properties && !i.configDiscoverable
  {
    Instance("drone", "drone", name, properties, false)
  }

  /** The discoverer's answer to one register call; a DuplicateName answer comes with the
      UUID the drone then draws for its new name. */
  datatype Attempt = Accepted | Duplicate(uuid: string) | IoFailure

  /** How a registration run ends: registered, failed with an IOException, or still
      renaming when the supplied answers run out. */
  datatype RegisterRun = Registered(state: DroneInit)
                       | RegisterFailed(state: DroneInit)
                       | StillRetrying(state: DroneInit)

  /** The number of DuplicateName answers before the first other answer. */
  function LeadingDuplicates(answers: seq<Attempt>): (n: nat)
    ensures n <= |answers|
    ensures forall k :: 0 <= k < n ==> answers[k].Duplicate?
    ensures n < |answers| ==> !answers[n].Duplicate?
  {
    if answers == [] || !answers[0].Duplicate? then 0
    else 1 + LeadingDuplicates(answers[1..])
  }

  /** The identifier after the renames those answers cause: "-" and the UUID appended
      once per DuplicateName. */
  function Renamed(id: string, duplicates: seq<Attempt>): (r: string)
    requires forall k :: 0 <= k < |duplicates| ==> duplicates[k].Duplicate?
    ensures |id| <= |r| && r[..|id|] == id
    ensures duplicates != [] ==> |r| > |id|
    decreases |duplicates|
  {
    if duplicates == [] then id
    else Renamed(id + "-" + duplicates[0].uuid, duplicates[1..])
  }

  /** registerDroneService: register the drone instance with properties {team: teamname};
      on DuplicateName rename and register again; an IOException propagates. Only a
      successful register records the instance. */
  function RegisterDroneService(d: DroneInit, env: Env, answers: seq<Attempt>): (r: RegisterRun)
    ensures |d.identifier| <= |r.state.identifier|
            && r.state.identifier[..|d.identifier|] == d.identifier
    ensures r.Registered? <==> LeadingDuplicates(answers) < |answers|
                               && answers[LeadingDuplicates(answers)] == Accepted
    ensures r.RegisterFailed? <==> LeadingDuplicates(answers) < |answers|
                                   && answers[LeadingDuplicates(answers)] == IoFailure
    ensures r.Registered? ==>
              r.state.registeredInstance
              == Some(DroneInstance(r.state.identifier, map["team" := GetTeamname(env)]))
    ensures !r.Registered? ==> r.state.registeredInstance == d.registeredInstance
    ensures r.state.identifier == Renamed(d.identifier, answers[..LeadingDuplicates(answers)])
    decreases |answers|
  {
    if answers == [] then StillRetrying(d)
    else
      match answers[0]
      case Accepted =>
        Registered(d.(registeredInstance :=
          Some(DroneInstance(d.identifier, map["team" := GetTeamname(env)]))))
      case IoFailure => RegisterFailed(d)
      case Duplicate(uuid) =>
        var r := RegisterDroneService(d.(identifier := d.identifier + "-" + uuid), env, answers[1..]);
        assert answers[..LeadingDuplicates(answers)][1..]
               == answers[1..][..LeadingDuplicates(answers[1..])];
        r
  }

  /** A name taken once makes the registered name strictly longer than the first one,
      starting with it and the first UUID. */
  lemma DuplicateExtendsName(d: DroneInit, env: Env, uuid: string, rest: seq<Attempt>)
    ensures var r := RegisterDroneService(d, env, [Duplicate(uuid)] + rest);
            |r.state.identifier| > |d.identifier|
            && r.state.identifier[..|d.identifier| + 1 + |uuid|] == d.identifier + "-" + uuid
  {
    var answers := [Duplicate(uuid)] + rest;
    assert answers[1..] == rest;
    var d2 := d.(identifier := d.identifier + "-" + uuid);
    var r2 := RegisterDroneService(d2, env, rest);
    assert RegisterDroneService(d, env, answers) == r2;
  }

  /** stop: the instance handed to the discoverer's unregister, the one recorded by the
      last successful registration (None stands for null). */
  function StopInstance(d: DroneInit): (i: Option<Instance>)
    ensures i.Some? <==> d.registeredInstance.Some?
    ensures i.Some? ==> i == d.registeredInstance
  {
    d.registeredInstance
  }

  /** After a successful registration, stop unregisters exactly the registered drone
      instance, under its final name. */
  lemma StopUnregistersRegistered(d: DroneInit, env: Env, answers: seq<Attempt>)
    requires RegisterDroneService(d, env, answers).Registered?
    ensures var s := RegisterDroneService(d, env, answers).state;
            StopInstance(s) == Some(DroneInstance(s.identifier, map["team" := GetTeamname(env)]))
            && StopInstance(s).value.name[..|d.identifier|] == d.identifier
  {
  }
}
