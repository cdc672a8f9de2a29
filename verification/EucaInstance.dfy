/**
 The per-instance record of instance.py: an instance's owner and id, the
 attribute map `update` fills in, and the path of its working directory.

 The shell commands `update` runs are not executed here: a `Probe` holds the
 text they printed, and `update` is the parse of that text.
 */
module EucaInstance {
  import opened Wrappers
  import opened Text

  /** The Eucalyptus state directory every instance path is built from. */
  const EucaLibPath: string := "/var/lib/eucalyptus/"

  // The attribute keys `update` writes.
  const HostName: string := "host_name"
  const HostIp: string := "host_ip"
  const MacAddress: string := "mac_address"
  const LibvirtId: string := "libvirt_id"
  const LibvirtStatus: string := "libvirt_status"
  const ConsoleLog: string := "console_log"

  const UpdateKeys: set<string> := {HostName, HostIp, MacAddress, LibvirtId, LibvirtStatus, ConsoleLog}

  /**
   What the operating system answers during one `update`:
   - hostName: `socket.gethostname()`;
   - hostIp: the address the SIOCGIFADDR ioctl reports for eth0;
   - macOutput: the output of `virsh dumpxml <id> | grep "mac address" | cut -d' -f2`;
   - virshOutput: the output of `virsh list | grep "<id>"`;
   - consoleTail: the output of `tail <instance path>/console.log`.
   */
  datatype Probe = Probe(hostName: string, hostIp: string, macOutput: string, virshOutput: string, consoleTail: string)

  /**
   The outputs `update` can index without an IndexError: a second line of the
   MAC output, and a second line of the `virsh list` output with three fields.
   */
  predicate ProbeOk(p: Probe) {
    |Lines(p.macOutput)| >= 2 && |Lines(p.virshOutput)| >= 2 && |Fields(Lines(p.virshOutput)[1])| >= 3
  }

  /**
   The attribute map after `update` has written its six keys over `attrs`:
   the MAC from the second line of the dumpxml output, the libvirt id and
   status from fields 0 and 2 of the second `virsh list` line.
   */
  function Refresh(attrs: map<string, string>, p: Probe): (r: map<string, string>)
    requires ProbeOk(p)
    ensures r.Keys == attrs.Keys + UpdateKeys
    ensures forall k :: k in attrs && k !in UpdateKeys ==> r[k] == attrs[k]
  {
    var data := Fields(Lines(p.virshOutput)[1]);
    attrs[HostName := p.hostName][HostIp := p.hostIp][MacAddress := Lines(p.macOutput)[1]]
         [LibvirtId := data[0]][LibvirtStatus := data[2]][ConsoleLog := p.consoleTail]
  }

  /** Python truthiness of a looked-up attribute: present and not the empty string. */
  predicate Truthy(v: Option<string>) {
    v.Some? && v.value != ""
  }

  function Lookup(attrs: map<string, string>, key: string): Option<string> {
    if key in attrs then Some(attrs[key]) else None
  }

  /** The record holds a run state reported by the hypervisor. */
  predicate HasRunState(attrs: map<string, string>) {
    Truthy(Lookup(attrs, LibvirtStatus))
  }

  /**
   After an update the record always holds a run state: the third field of
   the second `virsh list` line, non-empty and free of whitespace. The libvirt
   id is the first field of that line, the MAC address is the second
   `dumpxml` line, and the host name, host ip and console tail are the
   probe's values.
   */
  lemma RefreshConfirmsRunState(attrs: map<string, string>, p: Probe)
    requires ProbeOk(p)
    ensures HasRunState(Refresh(attrs, p))
    ensures IsField(Refresh(attrs, p)[LibvirtStatus])
    ensures Refresh(attrs, p)[LibvirtStatus] == Fields(Lines(p.virshOutput)[1])[2]
    ensures Refresh(attrs, p)[LibvirtId] == Fields(Lines(p.virshOutput)[1])[0]
    ensures IsField(Refresh(attrs, p)[LibvirtId])
    ensures Refresh(attrs, p)[MacAddress] == Lines(p.macOutput)[1]
    ensures BreakFree(Refresh(attrs, p)[MacAddress])
    ensures Refresh(attrs, p)[HostName] == p.hostName
    ensures Refresh(attrs, p)[HostIp] == p.hostIp
    ensures Refresh(attrs, p)[ConsoleLog] == p.consoleTail
  {
  }

  /**
   `os.path.join(a, b)` on POSIX: an absolute `b` replaces `a`; a relative `b`
   is appended to `a` with exactly one `/` between them (none after an empty
   `a` or one that already ends with `/`).
   */
  function PathJoin(a: string, b: string): string
  {
    if |b| > 0 && b[0] == '/' then b
    else if a == [] || a[|a| - 1] == '/' then a + b
    else a + "/" + b
  }

  /** A path component that `os.path.join` appends with exactly one `/` on either side. */
  predicate PlainComponent(c: string) {
    c != [] && c[0] != '/' && c[|c| - 1] != '/'
  }

  /** `os.path.join(EUCA_LIB_PATH, 'instances', username, instance_id)`. */
  function InstancePath(username: string, instanceId: string): string {
    PathJoin(PathJoin(PathJoin(EucaLibPath, "instances"), username), instanceId)
  }

  /**
   For a plain owner and a relative id the path is the directory layout
   `/var/lib/eucalyptus/instances/<owner>/<id>`.
   */
  lemma InstancePathLayout(username: string, instanceId: string)
    requires PlainComponent(username)
    requires instanceId == [] || instanceId[0] != '/'
    ensures InstancePath(username, instanceId) == EucaLibPath + "instances/" + username + "/" + instanceId
  {
    var base := PathJoin(EucaLibPath, "instances");
    assert base == "/var/lib/eucalyptus/instances";
    var mid := base + "/" + username;
    assert PathJoin(base, username) == mid;
    assert mid[|mid| - 1] == username[|username| - 1];
  }

  /** A snapshot of an `Instance`'s state. */
  datatype Record = Record(owner: string, id: string, attrs: map<string, string>, terminated: bool)

  class Instance {
    const username: string
    const instanceId: string
    var attrs: map<string, string>
    /** Set once the instance is seen to be gone; never cleared. */
    var terminated: bool

    function View(): Record
      reads this
    {
      Record(username, instanceId, attrs, terminated)
    }

    /**
     `Instance(username, instance_id, update)`: `update` is None for
     `update=False`, or the answers the shell gives to the first `update`.
     */
    constructor (username: string, instanceId: string, update: Option<Probe>)
      requires update.Some? ==> ProbeOk(update.value)
      ensures this.username == username && this.instanceId == instanceId
      ensures attrs == if update.Some? then Refresh(map[], update.value) else map[]
      ensures !terminated
    {
      this.username := username;
      this.instanceId := instanceId;
      attrs := map[];
      terminated := false;
      new;
      if update.Some? {
        Update(update.value);
      }
    }

    function GetUsername(): string {
      username
    }

    function GetInstanceId(): string {
      instanceId
    }

    function GetAttrs(): map<string, string>
      reads this
    {
      attrs
    }

    /** `get_attr(key)`: the value stored under `key`, or None when there is none. */
    function GetAttr(key: string): (v: Option<string>)
      reads this
      ensures v.Some? <==> key in attrs
      ensures v.Some? ==> v.value == attrs[key]
    {
      Lookup(attrs, key)
    }

    function GetInstancePath(): (path: string)
      ensures PlainComponent(username) && (instanceId == [] || instanceId[0] != '/') ==>
                path == EucaLibPath + "instances/" + username + "/" + instanceId
    {
      if PlainComponent(username) && (instanceId == [] || instanceId[0] != '/') then
        InstancePathLayout(username, instanceId);
        InstancePath(username, instanceId)
      else
        InstancePath(username, instanceId)
    }

    /** Writes the six attributes one by one over the existing map. */
    method Update(p: Probe)
      requires ProbeOk(p)
      modifies this`attrs
      ensures attrs == Refresh(old(attrs), p)
    {
      attrs := attrs[HostName := p.hostName];
      attrs := attrs[HostIp := p.hostIp];
      var macLines := Lines(p.macOutput);
      attrs := attrs[MacAddress := macLines[1]];
      var data := Fields(Lines(p.virshOutput)[1]);
      attrs := attrs[LibvirtId := data[0]];
      attrs := attrs[LibvirtStatus := data[2]];
      attrs := attrs[ConsoleLog := p.consoleTail];
    }

    method MarkTerminated()
      modifies this`terminated
      ensures terminated
    {
      terminated := true;
    }
  }
}
