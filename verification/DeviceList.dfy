/** hclient, the list of physical devices: what the messages about arriving and
    leaving devices do to it. */
module DeviceList {
  import opened CaseFold
  import opened LinkedList

  // ---------------------------------------------------------------------
  // What the messages mean

  /** A closed device has neither a path nor a file. */
  function Closed(d: Device): Device {
    d.(path := None, handle := None)
  }

  /** The search for earlier nodes of an arriving device. Those that are not open
      go away; an open one stops the search. */
  function Searched(devices: seq<Device>, name: string): (seq<Device>, bool) {
    if devices == [] then ([], false)
    else
      var d := devices[0];
      if d.path == Some(name) && d.isOpen then (devices, true)
      else
        var (rest, stopped) := Searched(devices[1..], name);
        if d.path == Some(name) then (rest, stopped) else ([d] + rest, stopped)
  }

  /** The node of an arriving device: it keeps the path even when the device could
      not be opened, and then its notification handle is whatever was there. */
  function Arriving(name: string, file: Option<int>, notification: int): Device {
    Device(Some(name), file, file.Some?, notification)
  }

  function Arrived(devices: seq<Device>, name: string, file: Option<int>, notification: int): seq<Device> {
    var (kept, stopped) := Searched(devices, name);
    if stopped then kept else kept + [Arriving(name, file, notification)]
  }

  /** The first device with a notification handle; the length if there is none. */
  function Holder(devices: seq<Device>, notification: int): (k: nat)
    ensures k <= |devices|
    ensures k < |devices| ==> devices[k].notification == notification
    ensures forall i | 0 <= i < k :: devices[i].notification != notification
  {
    if devices == [] || devices[0].notification == notification then 0
    else 1 + Holder(devices[1..], notification)
  }

  function QueriedRemove(devices: seq<Device>, notification: int): seq<Device> {
    var k := Holder(devices, notification);
    if k < |devices| && devices[k].isOpen then devices[k := Closed(devices[k]).(isOpen := false)] else devices
  }

  function RemovedComplete(devices: seq<Device>, notification: int): seq<Device> {
    var k := Holder(devices, notification);
    if k < |devices| then devices[..k] + devices[k + 1..] else devices
  }

  datatype Event =
    | Arrival(name: string, file: Option<int>, notification: int)
    | QueryRemove(handle: int)
    | RemoveComplete(handle: int)

  function Handled(devices: seq<Device>, e: Event): seq<Device> {
    match e
    case Arrival(name, file, notification) => Arrived(devices, name, file, notification)
    case QueryRemove(handle) => QueriedRemove(devices, handle)
    case RemoveComplete(handle) => RemovedComplete(devices, handle)
  }

  function Run(devices: seq<Device>, events: seq<Event>): seq<Device> {
    if events == [] then devices
    else Handled(Run(devices, events[..|events| - 1]), events[|events| - 1])
  }

  // ---------------------------------------------------------------------
  // What every run keeps

  predicate PathsDiffer(devices: seq<Device>) {
    forall i, j | 0 <= i < j < |devices| :: devices[i].path.Some? ==> devices[i].path != devices[j].path
  }

  /** A device counts as open exactly while there is a file for it. */
  predicate OpenHasFile(d: Device) {
    (d.isOpen <==> d.handle.Some?) && (d.isOpen ==> d.path.Some?)
  }

  predicate Consistent(devices: seq<Device>) {
    PathsDiffer(devices) && forall i | 0 <= i < |devices| :: OpenHasFile(devices[i])
  }

  function DropAt(devices: seq<Device>, k: nat): seq<Device>
    requires k < |devices|
  {
    devices[..k] + devices[k + 1..]
  }

  lemma DropKeeps(devices: seq<Device>, k: nat)
    requires Consistent(devices) && k < |devices|
    ensures Consistent(DropAt(devices, k))
  {
    var r := DropAt(devices, k);
    forall i | 0 <= i < |r|
      ensures r[i] == devices[if i < k then i else i + 1]
    {
    }
  }

  function WithPath(devices: seq<Device>, name: string): (k: nat)
    ensures k <= |devices|
    ensures k < |devices| ==> devices[k].path == Some(name)
    ensures forall i | 0 <= i < k :: devices[i].path != Some(name)
  {
    if devices == [] || devices[0].path == Some(name) then 0 else 1 + WithPath(devices[1..], name)
  }

  lemma {:induction false} SearchedNone(devices: seq<Device>, name: string)
    requires forall i | 0 <= i < |devices| :: devices[i].path != Some(name)
    ensures Searched(devices, name) == (devices, false)
  {
    if devices != [] {
      SearchedNone(devices[1..], name);
      assert devices == [devices[0]] + devices[1..];
    }
  }

  function SearchResult(devices: seq<Device>, k: nat): (seq<Device>, bool)
    requires k <= |devices|
  {
    if k == |devices| then (devices, false)
    else if devices[k].isOpen then (devices, true)
    else (DropAt(devices, k), false)
  }

  /** When paths differ there is one earlier node at most: it stays if it is open,
      and makes room if it is not. */
  lemma {:induction false} SearchedOne(devices: seq<Device>, name: string)
    requires PathsDiffer(devices)
    ensures Searched(devices, name) == SearchResult(devices, WithPath(devices, name))
  {
    if devices != [] {
      TailDiffers(devices);
      if devices[0].path == Some(name) {
        SearchedNone(devices[1..], name);
        assert DropAt(devices, 0) == devices[1..];
      } else {
        SearchedOne(devices[1..], name);
        ConsDrop(devices, WithPath(devices[1..], name));
      }
    }
  }

  lemma TailDiffers(devices: seq<Device>)
    requires PathsDiffer(devices) && devices != []
    ensures PathsDiffer(devices[1..])
    ensures devices[0].path.Some? ==> forall i | 0 <= i < |devices[1..]| :: devices[1..][i].path != devices[0].path
  {
    forall i, j | 0 <= i < j < |devices[1..]|
      ensures devices[1..][i].path.Some? ==> devices[1..][i].path != devices[1..][j].path
    {
      assert devices[1..][i] == devices[i + 1] && devices[1..][j] == devices[j + 1];
    }
    forall i | 0 <= i < |devices[1..]|
      ensures devices[0].path.Some? ==> devices[1..][i].path != devices[0].path
    {
      assert devices[1..][i] == devices[i + 1];
    }
  }

  lemma ConsDrop(devices: seq<Device>, k: nat)
    requires devices != [] && k <= |devices| - 1
    ensures devices == [devices[0]] + devices[1..]
    ensures k < |devices| - 1 ==> [devices[0]] + DropAt(devices[1..], k) == DropAt(devices, k + 1)
  {
  }

  lemma ArrivalKeeps(devices: seq<Device>, name: string, file: Option<int>, notification: int)
    requires Consistent(devices)
    ensures Consistent(Arrived(devices, name, file, notification))
  {
    SearchedOne(devices, name);
    var k := WithPath(devices, name);
    if k == |devices| {
      AppendKeeps(devices, Arriving(name, file, notification));
    } else if !devices[k].isOpen {
      DropKeeps(devices, k);
      var kept := DropAt(devices, k);
      forall i | 0 <= i < |kept|
        ensures kept[i].path != Some(name)
      {
        if i >= k {
          assert kept[i] == devices[i + 1] && devices[k].path != devices[i + 1].path;
        }
      }
      AppendKeeps(kept, Arriving(name, file, notification));
    }
  }

  lemma AppendKeeps(devices: seq<Device>, d: Device)
    requires Consistent(devices) && OpenHasFile(d)
    requires forall i | 0 <= i < |devices| :: devices[i].path != d.path
    ensures Consistent(devices + [d])
  {
  }

  /** Every message keeps the paths apart and the open flags right. */
  lemma HandledKeeps(devices: seq<Device>, e: Event)
    requires Consistent(devices)
    ensures Consistent(Handled(devices, e))
  {
    match e
    case Arrival(name, file, notification) =>
      ArrivalKeeps(devices, name, file, notification);
    case QueryRemove(handle) =>
    case RemoveComplete(handle) =>
      var k := Holder(devices, handle);
      if k < |devices| {
        DropKeeps(devices, k);
      }
  }

  lemma {:induction false} RunKeeps(devices: seq<Device>, events: seq<Event>)
    requires Consistent(devices)
    ensures Consistent(Run(devices, events))
  {
    if events != [] {
      RunKeeps(devices, events[..|events| - 1]);
      HandledKeeps(Run(devices, events[..|events| - 1]), events[|events| - 1]);
    }
  }

  /** After an arrival exactly one device has its path: the one that was open
      already, or else the new one at the end. */
  lemma ArrivalListed(devices: seq<Device>, name: string, file: Option<int>, notification: int)
    requires Consistent(devices)
    ensures
      var after := Arrived(devices, name, file, notification);
      var k := WithPath(after, name);
      && k < |after|
      && (forall i | 0 <= i < |after| && i != k :: after[i].path != Some(name))
      && if exists i | 0 <= i < |devices| :: devices[i].path == Some(name) && devices[i].isOpen
         then after == devices
         else k == |after| - 1 && after[k] == Arriving(name, file, notification)
  {
    SearchedOne(devices, name);
    ArrivalKeeps(devices, name, file, notification);
    var after, earlier := Arrived(devices, name, file, notification), WithPath(devices, name);
    var k := WithPath(after, name);
    if earlier < |devices| && devices[earlier].isOpen {
      assert after == devices;
    } else {
      assert after[|after| - 1] == Arriving(name, file, notification);
    }
    forall i | 0 <= i < |after| && i != k
      ensures after[i].path != Some(name)
    {
      if k < i {
        assert after[k].path != after[i].path;
      } else {
        assert after[i].path != Some(name);
      }
    }
  }

  // ---------------------------------------------------------------------
  // What the messages do, device by device

  /** The device at k is the first with the notification. */
  predicate IsFirst(devices: seq<Device>, notification: int, k: nat) {
    && k < |devices| && devices[k].notification == notification
    && forall i | 0 <= i < k :: devices[i].notification != notification
  }

  lemma FirstIsHolder(devices: seq<Device>, notification: int)
    ensures forall k: nat | IsFirst(devices, notification, k) :: Holder(devices, notification) == k
    ensures Holder(devices, notification) < |devices| ==> IsFirst(devices, notification, Holder(devices, notification))
    ensures (forall i | 0 <= i < |devices| :: devices[i].notification != notification) <==>
            Holder(devices, notification) == |devices|
  {
  }

  /** When removal is asked for, the first device with the notification, if it is
      open, ends up closed: without a file, without a path, and not open. Every
      other device stays as it is, and where it stands. */
  lemma QueryCloses(devices: seq<Device>, notification: int)
    ensures
      var after := Handled(devices, QueryRemove(notification));
      && |after| == |devices|
      && forall i | 0 <= i < |devices| ::
           if IsFirst(devices, notification, i) && devices[i].isOpen then
             after[i].handle == None && after[i].path == None && !after[i].isOpen
             && after[i].notification == notification
           else after[i] == devices[i]
  {
    FirstIsHolder(devices, notification);
  }

  /** When it is complete, the first device with the notification is gone, and the
      others are what and where they were. */
  lemma RemoveDrops(devices: seq<Device>, notification: int, k: nat)
    ensures IsFirst(devices, notification, k) ==>
              Handled(devices, RemoveComplete(notification)) == devices[..k] + devices[k + 1..]
    ensures (forall i | 0 <= i < |devices| :: devices[i].notification != notification) ==>
              Handled(devices, RemoveComplete(notification)) == devices
  {
    FirstIsHolder(devices, notification);
    assert IsFirst(devices, notification, k) ==> k == Holder(devices, notification);
  }

  /** The node of the path, if one is listed. */
  predicate IsListedAt(devices: seq<Device>, name: string, k: nat) {
    k < |devices| && devices[k].path == Some(name)
  }

  lemma ListedOnce(devices: seq<Device>, name: string, k: nat)
    requires PathsDiffer(devices) && IsListedAt(devices, name, k)
    ensures WithPath(devices, name) == k
  {
    assert WithPath(devices, name) <= k;
  }

  /** An arriving device is listed last, with its path, and is open exactly if there
      is a file for it. */
  predicate ListedLast(after: seq<Device>, others: seq<Device>, name: string, file: Option<int>, notification: int) {
    && |after| == |others| + 1 && after[..|others|] == others
    && var d := after[|others|];
       d.path == Some(name) && d.handle == file && (d.isOpen <==> file.Some?) && d.notification == notification
  }

  /** It joins the others, taking the place of an earlier node of it, unless that
      one is open: then nothing changes. */
  lemma ArrivalAppends(devices: seq<Device>, name: string, file: Option<int>, notification: int, k: nat)
    requires Consistent(devices)
    ensures
      var after := Handled(devices, Arrival(name, file, notification));
      && (IsListedAt(devices, name, k) ==>
            if devices[k].isOpen then after == devices
            else ListedLast(after, devices[..k] + devices[k + 1..], name, file, notification))
      && ((forall i | 0 <= i < |devices| :: devices[i].path != Some(name)) ==>
            ListedLast(after, devices, name, file, notification))
  {
    SearchedOne(devices, name);
    if IsListedAt(devices, name, k) {
      ListedOnce(devices, name, k);
    }
  }

  /** At most one device has the notification. */
  predicate OneHas(devices: seq<Device>, notification: int) {
    forall i, j | 0 <= i < j < |devices| ::
      !(devices[i].notification == notification && devices[j].notification == notification)
  }

  /** No device with the notification has a file. */
  predicate NoFile(devices: seq<Device>, notification: int) {
    forall i | 0 <= i < |devices| && devices[i].notification == notification :: devices[i].handle == None
  }

  lemma {:induction false} SearchedFrom(devices: seq<Device>, name: string)
    ensures forall i | 0 <= i < |Searched(devices, name).0| :: Searched(devices, name).0[i] in devices
  {
    if devices != [] {
      SearchedFrom(devices[1..], name);
      assert forall d | d in devices[1..] :: d in devices;
    }
  }

  lemma StaysWithoutFile(devices: seq<Device>, e: Event, notification: int)
    requires NoFile(devices, notification) && (e.Arrival? ==> e.notification != notification)
    ensures NoFile(Handled(devices, e), notification)
  {
    match e
    case Arrival(name, file, given) => SearchedFrom(devices, name);
    case QueryRemove(handle) => QueryCloses(devices, handle);
    case RemoveComplete(handle) => RemoveDrops(devices, handle, Holder(devices, handle));
  }

  /** Once removal has been asked for, the device has no file in any run, until a
      device arrives that is given the same notification. */
  lemma {:induction false} StaysClosed(devices: seq<Device>, notification: int, events: seq<Event>)
    requires Consistent(devices) && OneHas(devices, notification)
    requires forall e | e in events && e.Arrival? :: e.notification != notification
    ensures NoFile(Run(Handled(devices, QueryRemove(notification)), events), notification)
  {
    if events == [] {
      QueryCloses(devices, notification);
      var after := Handled(devices, QueryRemove(notification));
      forall i | 0 <= i < |after| && after[i].notification == notification
        ensures after[i].handle == None
      {
        assert OpenHasFile(devices[i]);
        assert IsFirst(devices, notification, i);
      }
    } else {
      var n := |events| - 1;
      StaysClosed(devices, notification, events[..n]);
      StaysWithoutFile(Run(Handled(devices, QueryRemove(notification)), events[..n]), events[n], notification);
    }
  }

  // ---------------------------------------------------------------------
  // The handlers

  lemma DevicesDrop(nodes: seq<Node>, k: nat)
    requires k < |nodes|
    ensures Devices(nodes[..k] + nodes[k + 1..]) == DropAt(Devices(nodes), k)
  {
    var r := nodes[..k] + nodes[k + 1..];
    forall i | 0 <= i < |r|
      ensures Devices(r)[i] == DropAt(Devices(nodes), k)[i]
    {
    }
  }

  function Onto(kept: seq<Device>, r: (seq<Device>, bool)): (seq<Device>, bool) {
    (kept + r.0, r.1)
  }

  /** The search has looked at the first j devices and kept some of them. */
  predicate SoFar(before: seq<Device>, name: string, j: nat, kept: seq<Device>, contents: seq<Device>) {
    && j <= |before| && contents == kept + before[j..]
    && Searched(before, name) == Onto(kept, Searched(before[j..], name))
  }

  lemma SearchStart(devices: seq<Device>, name: string)
    ensures SoFar(devices, name, 0, [], devices)
  {
    assert devices[0..] == devices && [] + devices == devices;
    assert [] + Searched(devices, name).0 == Searched(devices, name).0;
  }

  lemma SearchUnfold(before: seq<Device>, name: string, j: nat)
    requires j < |before|
    ensures
      var d, rest := before[j], Searched(before[j + 1..], name);
      Searched(before[j..], name) ==
        if d.path == Some(name) then if d.isOpen then (before[j..], true) else rest else Onto([d], rest)
  {
    assert before[j..][0] == before[j] && before[j..][1..] == before[j + 1..];
  }

  lemma SearchStop(before: seq<Device>, name: string, j: nat, kept: seq<Device>, contents: seq<Device>)
    requires SoFar(before, name, j, kept, contents)
    requires j < |before| ==> before[j].path == Some(name) && before[j].isOpen
    ensures Searched(before, name) == (contents, j < |before|)
  {
    if j < |before| {
      SearchUnfold(before, name, j);
    } else {
      assert kept + [] == kept;
    }
  }

  lemma SearchDrop(before: seq<Device>, name: string, j: nat, kept: seq<Device>, contents: seq<Device>)
    requires SoFar(before, name, j, kept, contents)
    requires j < |before| && before[j].path == Some(name) && !before[j].isOpen
    ensures SoFar(before, name, j + 1, kept, DropAt(contents, |kept|))
  {
    SearchUnfold(before, name, j);
    assert DropAt(contents, |kept|) == kept + before[j + 1..];
  }

  lemma SearchKeep(before: seq<Device>, name: string, j: nat, kept: seq<Device>, contents: seq<Device>)
    requires SoFar(before, name, j, kept, contents)
    requires j < |before| && before[j].path != Some(name)
    ensures SoFar(before, name, j + 1, kept + [before[j]], contents)
  {
    SearchUnfold(before, name, j);
    assert contents == kept + [before[j]] + before[j + 1..];
    var rest := Searched(before[j + 1..], name).0;
    assert kept + ([before[j]] + rest) == kept + [before[j]] + rest;
  }

  lemma DropReplaced(devices: seq<Device>, k: nat, d: Device)
    requires k < |devices|
    ensures DropAt(devices[k := d], k) == DropAt(devices, k)
  {
  }

  /** A node that leaves the list has no file open any more. */
  ghost predicate LeftClosed(node: Node, was: Device)
    reads node
  {
    node.device == if was.isOpen then Closed(was) else was
  }

  class PhysicalDeviceList {
    const sentinel: Node
    ghost var nodes: seq<Node>
    ghost var Repr: set<Node>

    ghost predicate Valid()
      reads this, Repr
    {
      && sentinel in Repr && (forall i | 0 <= i < |nodes| :: nodes[i] in Repr)
      && IsRing(sentinel, nodes)
    }

    ghost function Contents(): seq<Device>
      reads this, nodes
    {
      Devices(nodes)
    }

    constructor ()
      ensures Valid() && Contents() == [] && fresh(Repr)
    {
      sentinel := new Node(Device(None, None, false, NULL_HANDLE));
      nodes, Repr := [], {sentinel};
    }

    /** A device arrives: its earlier nodes are looked for, and it gets a new one
        unless it is open already. */
    method OnArrival(name: string, file: Option<int>, notification: int)
      requires Valid()
      modifies this, Repr
      ensures Valid() && fresh(Repr - old(Repr))
      ensures Contents() == Arrived(old(Contents()), name, file, notification)
    {
      var stopped := Search(name);
      if !stopped {
        var listNode := new Node(Arriving(name, file, notification));
        LinksStayInside(sentinel, nodes, sentinel);
        InsertTail(sentinel, listNode, nodes);
        nodes, Repr := nodes + [listNode], Repr + {listNode};
      }
    }

    /** Take a node out of the list. */
    method Unlink(currNode: Node, ghost k: nat)
      requires Valid() && k < |nodes| && currNode == nodes[k]
      modifies this`nodes, Repr
      ensures Valid() && nodes == old(nodes[..k] + nodes[k + 1..])
      ensures Contents() == DropAt(old(Contents()), k)
      ensures currNode.device == old(currNode.device)
    {
      LinksStayInside(sentinel, nodes, currNode);
      DevicesDrop(nodes, k);
      RemoveNode(sentinel, currNode, nodes, k);
      nodes := nodes[..k] + nodes[k + 1..];
      assert Contents() == DropAt(old(Contents()), k);
    }

    /** An earlier node that is not open goes away, file and all. */
    method Discard(currNode: Node, ghost k: nat)
      requires Valid() && k < |nodes| && currNode == nodes[k]
      modifies this`nodes, Repr
      ensures Valid() && nodes == old(nodes[..k] + nodes[k + 1..])
      ensures Contents() == DropAt(old(Contents()), k)
      ensures currNode.device == Closed(old(currNode.device))
    {
      Unlink(currNode, k);
      assert currNode !in nodes;
      ghost var rest := Contents();
      CloseHidDevice(currNode);
      assert Contents() == rest;
    }

    /** The search of an arrival comes to a node. */
    method Visit(currNode: Node, name: string, ghost before: seq<Device>, ghost j: nat, ghost kept: seq<Device>)
      returns (stopped: bool, nextNode: Node, ghost kept': seq<Device>)
      requires Valid() && SoFar(before, name, j, kept, Contents()) && j < |before|
      requires currNode == RingAt(sentinel, nodes, |kept| + 1)
      modifies this`nodes, Repr
      ensures Valid()
      ensures stopped ==> Searched(before, name) == (Contents(), true)
      ensures !stopped ==>
                SoFar(before, name, j + 1, kept', Contents()) && nextNode == RingAt(sentinel, nodes, |kept'| + 1)
    {
      assert |kept| < |nodes| && currNode == nodes[|kept|] && Contents()[|kept|] == before[j];
      Links(sentinel, nodes, |kept| + 1);
      nextNode := currNode.Flink;
      stopped, kept' := false, kept;
      if currNode.device.path == Some(name) {
        if currNode.device.isOpen {
          SearchStop(before, name, j, kept, Contents());
          return true, nextNode, kept;
        }
        SearchDrop(before, name, j, kept, Contents());
        Discard(currNode, |kept|);
      } else {
        SearchKeep(before, name, j, kept, Contents());
        kept' := kept + [before[j]];
      }
    }

    /** The search of an arrival. */
    method Search(name: string) returns (stopped: bool)
      requires Valid()
      modifies this`nodes, Repr
      ensures Valid()
      ensures (Contents(), stopped) == Searched(old(Contents()), name)
    {
      var currNode := sentinel.Flink;
      ghost var before, kept := Contents(), [];
      ghost var j: nat := 0;
      Links(sentinel, nodes, 0);
      SearchStart(before, name);
      while currNode != sentinel
        invariant Valid() && SoFar(before, name, j, kept, Contents())
        invariant currNode == RingAt(sentinel, nodes, |kept| + 1)
        decreases |before| - j
      {
        assert j < |before|;
        stopped, currNode, kept := Visit(currNode, name, before, j, kept);
        if stopped {
          return;
        }
        j := j + 1;
      }
      SearchStop(before, name, j, kept, Contents());
      stopped := false;
    }

    /** The first node with a notification handle, or the sentinel. */
    method Find(notification: int) returns (currNode: Node)
      requires Valid()
      ensures currNode == RingAt(sentinel, nodes, Holder(Contents(), notification) + 1)
    {
      currNode := sentinel.Flink;
      ghost var k: nat := 0;
      Links(sentinel, nodes, 0);
      while currNode != sentinel && currNode.device.notification != notification
        invariant k <= |nodes| && currNode == RingAt(sentinel, nodes, k + 1)
        invariant Holder(Contents(), notification) == k + Holder(Contents()[k..], notification)
        decreases |nodes| - k
      {
        assert Contents()[k..][0] == currNode.device && Contents()[k..][1..] == Contents()[k + 1..];
        Links(sentinel, nodes, k + 1);
        currNode := currNode.Flink;
        k := k + 1;
      }
    }

    /** A device is about to be removed: its file is closed. */
    method OnQueryRemove(notification: int)
      requires Valid()
      modifies Repr
      ensures Valid()
      ensures Contents() == QueriedRemove(old(Contents()), notification)
    {
      var currNode := Find(notification);
      ghost var k := Holder(Contents(), notification);
      if currNode != sentinel && currNode.device.isOpen {
        ghost var before := Contents();
        CloseHidDevice(currNode);
        currNode.device := currNode.device.(isOpen := false);
        assert Contents() == before[k := Closed(before[k]).(isOpen := false)];
      }
    }

    /** A device has been removed: its node goes away, with its file closed, and its
        notification is to be taken back. */
    method OnRemoveComplete(notification: int) returns (unregister: Option<int>)
      requires Valid()
      modifies this`nodes, Repr
      ensures Valid()
      ensures Contents() == RemovedComplete(old(Contents()), notification)
      ensures
        var k := Holder(old(Contents()), notification);
        if k < |old(nodes)| then unregister == Some(notification) && LeftClosed(old(nodes)[k], old(Contents())[k])
        else unregister == None
    {
      unregister := None;
      var currNode := Find(notification);
      ghost var k := Holder(Contents(), notification);
      if currNode != sentinel {
        ghost var before := Contents();
        unregister := Some(currNode.device.notification);
        if currNode.device.isOpen {
          CloseHidDevice(currNode);
        }
        assert Contents() == before[k := currNode.device];
        DropReplaced(before, k, currNode.device);
        Unlink(currNode, k);
      }
    }

    /** The end of the program: every node is taken off the head, closed, and its
        notification taken back. */
    method Destroy() returns (ghost visited: seq<Node>, unregistered: seq<int>)
      requires Valid()
      modifies this`nodes, Repr
      ensures Valid() && Contents() == []
      ensures visited == old(nodes)
      ensures |Devices(visited)| == |old(Contents())|
      ensures forall i | 0 <= i < |visited| :: visited[i].device == Closed(old(Contents())[i])
      ensures unregistered == Registered(old(Contents()))
    {
      visited, unregistered := [], [];
      ghost var all, before := nodes, Contents();
      var empty := IsListEmpty(sentinel, nodes);
      while !empty
        invariant Valid() && |visited| <= |all| == |before| && nodes == all[|visited|..]
        invariant visited == all[..|visited|]
        invariant empty <==> nodes == []
        invariant forall i | 0 <= i < |visited| :: all[i].device == Closed(before[i])
        invariant Contents() == before[|visited|..]
        invariant Registered(before) == unregistered + Registered(Contents())
        decreases |nodes|
      {
        var currNode;
        currNode, unregistered := DestroyHead(unregistered);
        visited := visited + [currNode];
        empty := IsListEmpty(sentinel, nodes);
      }
    }

    /** One round: the first node is taken off and closed. */
    method DestroyHead(unregistered: seq<int>) returns (currNode: Node, more: seq<int>)
      requires Valid() && nodes != []
      modifies this`nodes, Repr
      ensures Valid() && nodes == old(nodes)[1..] && currNode == old(nodes)[0]
      ensures Contents() == old(Contents())[1..]
      ensures currNode.device == Closed(old(Contents())[0])
      ensures forall n | n in Repr && n != currNode :: n.device == old(n.device)
      ensures more + Registered(Contents()) == unregistered + Registered(old(Contents()))
    {
      ghost var before := Contents();
      Links(sentinel, nodes, 0);
      LinksStayInside(sentinel, nodes, nodes[0]);
      currNode := RemoveHead(sentinel, nodes);
      nodes := nodes[1..];
      assert Contents() == before[1..];
      assert currNode !in nodes;
      CloseHidDevice(currNode);
      assert Contents() == before[1..];
      more := unregistered;
      if currNode.device.notification != NULL_HANDLE {
        more := more + [currNode.device.notification];
      }
    }
  }

  function Registered(devices: seq<Device>): seq<int> {
    if devices == [] then []
    else (if devices[0].notification != NULL_HANDLE then [devices[0].notification] else []) + Registered(devices[1..])
  }

  /** Exactly the handles that there are. */
  lemma {:induction false} RegisteredExact(devices: seq<Device>, h: int)
    ensures h in Registered(devices) <==> h != 0 && exists i | 0 <= i < |devices| :: devices[i].notification == h
  {
    if devices != [] {
      RegisteredExact(devices[1..], h);
      if i :| 0 <= i < |devices| && devices[i].notification == h && i > 0 {
        assert devices[1..][i - 1].notification == h;
      }
      if i :| 0 <= i < |devices[1..]| && devices[1..][i].notification == h {
        assert devices[i + 1].notification == h;
      }
    }
  }

  method CloseHidDevice(node: Node)
    modifies node`device
    ensures node.device == Closed(old(node.device))
  {
    node.device := node.device.(path := None, handle := None);
  }
}
