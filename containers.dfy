/** The text formatting of the container lister: `_format_ports`, which renders
    one container's port mapping, and `list_running_containers`, which renders
    the daemon's list of running containers, or the error it raised, as one
    report string. The daemon query itself is an input here. */
module Containers {
  import opened PyStr

  datatype Option<T> = None | Some(value: T)

  /** What the `try` block of `list_running_containers` ends with: the list of
      running containers, or the `Exception` raised on the way. */
  datatype Result<T, E> = Ok(value: T) | Failure(error: E)

  /** A `docker.errors.DockerException`, or any other `Exception`; `msg` is
      `str(e)`. */
  datatype Err = DockerErr(msg: string) | OtherErr(msg: string)

  /** One host binding of a published port: a dict whose `HostIp` and
      `HostPort` keys may each be absent. */
  datatype Binding = Binding(hostIp: Option<string>, hostPort: Option<string>)

  /** `container.ports`: container-side port (such as "80/tcp") to its host
      bindings, in the dict's insertion order. A port with `None` bindings is
      the same as one with no bindings here, since the code only tests them
      for truth. */
  type PortMap = seq<(string, seq<Binding>)>

  /** The fields of one running container the report reads. */
  datatype ContainerSummary = ContainerSummary(
    shortId: string,
    name: string,
    imageTags: seq<string>,
    imageShortId: string,
    status: string,
    ports: PortMap)

  // ---------------------------------------------------------------------------
  // _format_ports
  // ---------------------------------------------------------------------------

  /** `binding.get(key, default)`: the default stands in only for an absent key. */
  function GetOr(v: Option<string>, default: string): string {
    match v
    case None => default
    case Some(x) => x
  }

  /** A fragment is recognisable as port text: it holds a ':' (a binding) or a
      ')' (an unbound port), which "None" and "No exposed ports" do not. */
  predicate Marked(f: string) {
    ':' in f || ')' in f
  }

  lemma MarkedPrefix(f: string, r: string)
    requires f <= r && Marked(f)
    ensures Marked(r)
  {
    if ':' in f {
      var k :| 0 <= k < |f| && f[k] == ':';
      assert r[k] == ':';
    } else {
      var k :| 0 <= k < |f| && f[k] == ')';
      assert r[k] == ')';
    }
  }

  /** The fragment one host binding contributes: `ip:hostport -> port`. */
  function BindingFragment(port: string, b: Binding): string {
    GetOr(b.hostIp, "0.0.0.0") + ":" + GetOr(b.hostPort, "?") + " -> " + port
  }

  /** The fragment a port without host bindings contributes. */
  function UnboundFragment(port: string): string {
    port + " (not bound)"
  }

  /** The fragments of a non-empty bindings list: one per binding, in order. */
  function BindingFragments(port: string, bs: seq<Binding>): (fs: seq<string>)
    ensures |fs| == |bs|
  {
    if bs == [] then []
    else BindingFragments(port, bs[..|bs| - 1]) + [BindingFragment(port, bs[|bs| - 1])]
  }

  /** One fragment per binding, in binding order. */
  lemma {:induction false} BindingFragmentsAt(port: string, bs: seq<Binding>)
    ensures forall j :: 0 <= j < |bs| ==> BindingFragments(port, bs)[j] == BindingFragment(port, bs[j])
    decreases |bs|
  {
    if bs != [] {
      BindingFragmentsAt(port, bs[..|bs| - 1]);
    }
  }

  /** How many fragments a port contributes: max(1, number of bindings). */
  function Weight(bs: seq<Binding>): nat {
    if bs == [] then 1 else |bs|
  }

  /** The fragments one port contributes. */
  function PortFragments(port: string, bs: seq<Binding>): (fs: seq<string>)
    ensures |fs| == Weight(bs)
  {
    if bs == [] then [UnboundFragment(port)] else BindingFragments(port, bs)
  }

  /** The `port_mappings` list: every port's fragments, in mapping order. */
  function AllFragments(ps: PortMap): (fs: seq<string>)
    ensures |fs| >= |ps|
  {
    if ps == [] then []
    else
      var last := ps[|ps| - 1];
      AllFragments(ps[..|ps| - 1]) + PortFragments(last.0, last.1)
  }

  /** The sum over the ports of max(1, number of bindings). */
  function FragmentCount(ps: PortMap): nat {
    if ps == [] then 0 else Weight(ps[0].1) + FragmentCount(ps[1..])
  }

  /** What `_format_ports(ports)` returns. */
  function FormatPortsSpec(ps: PortMap): (r: string)
    ensures ps == [] ==> r == "None"
    ensures ps != [] ==> r == Join(AllFragments(ps), ", ")
  {
    if ps == [] then "None"
    else
      var fs := AllFragments(ps);
      if fs != [] then Join(fs, ", ") else "None"
  }

  /** `_format_ports`: collects the fragments port by port and binding by
      binding, then joins them with ", ". */
  method FormatPorts(ports: PortMap) returns (s: string)
    ensures s == FormatPortsSpec(ports)
  {
    if |ports| == 0 {
      return "None";
    }
    var portMappings: seq<string> := [];
    for i := 0 to |ports|
      invariant portMappings == AllFragments(ports[..i])
    {
      var (containerPort, hostBindings) := ports[i];
      if |hostBindings| > 0 {
        for j := 0 to |hostBindings|
          invariant portMappings
                    == AllFragments(ports[..i]) + BindingFragments(containerPort, hostBindings[..j])
        {
          var binding := hostBindings[j];
          var hostIp := GetOr(binding.hostIp, "0.0.0.0");
          var hostPort := GetOr(binding.hostPort, "?");
          portMappings := portMappings + [hostIp + ":" + hostPort + " -> " + containerPort];
          BindingFragmentsStep(containerPort, hostBindings, j);
          AppendAssoc(AllFragments(ports[..i]), BindingFragments(containerPort, hostBindings[..j]),
                      [BindingFragment(containerPort, binding)]);
        }
        assert hostBindings[..|hostBindings|] == hostBindings;
      } else {
        portMappings := portMappings + [containerPort + " (not bound)"];
      }
      AllFragmentsStep(ports, i);
    }
    assert ports[..|ports|] == ports;
    s := if |portMappings| > 0 then Join(portMappings, ", ") else "None";
  }

  /** One more binding adds its fragment at the end. */
  lemma BindingFragmentsStep(port: string, bs: seq<Binding>, j: nat)
    requires j < |bs|
    ensures BindingFragments(port, bs[..j + 1])
            == BindingFragments(port, bs[..j]) + [BindingFragment(port, bs[j])]
  {
    assert bs[..j + 1][..j] == bs[..j];
  }

  /** One more port adds its fragments at the end. */
  lemma AllFragmentsStep(ps: PortMap, i: nat)
    requires i < |ps|
    ensures AllFragments(ps[..i + 1]) == AllFragments(ps[..i]) + PortFragments(ps[i].0, ps[i].1)
  {
    assert ps[..i + 1][..i] == ps[..i];
  }

  /** Fragment counts add up over a split of the mapping. */
  lemma {:induction false} FragmentCountSplit(a: PortMap, b: PortMap)
    ensures FragmentCount(a + b) == FragmentCount(a) + FragmentCount(b)
    decreases |a|
  {
    if a != [] {
      assert (a + b)[1..] == a[1..] + b;
      FragmentCountSplit(a[1..], b);
    } else {
      assert a + b == b;
    }
  }

  /** The number of fragments is the sum over the ports of max(1, number of
      bindings); in particular every port contributes at least one. */
  lemma {:induction false} AllFragmentsCount(ps: PortMap)
    ensures |AllFragments(ps)| == FragmentCount(ps)
    decreases |ps|
  {
    if ps != [] {
      var init, last := ps[..|ps| - 1], ps[|ps| - 1];
      AllFragmentsCount(init);
      FragmentCountSplit(init, [last]);
      assert init + [last] == ps;
    }
  }

  /** The fragments of a mapping split as the mapping does: mapping order is kept. */
  lemma {:induction false} AllFragmentsSplit(a: PortMap, b: PortMap)
    ensures AllFragments(a + b) == AllFragments(a) + AllFragments(b)
    decreases |b|
  {
    if b == [] {
      assert a + b == a;
    } else {
      var init, last := b[..|b| - 1], b[|b| - 1];
      var tail := PortFragments(last.0, last.1);
      assert AllFragments(a + b) == AllFragments(a + init) + tail by {
        assert (a + b)[..|a + b| - 1] == a + init;
        assert (a + b)[|a + b| - 1] == last;
      }
      AllFragmentsSplit(a, init);
      AppendAssoc(AllFragments(a), AllFragments(init), tail);
    }
  }

  /** Port `i` owns the fragments right after those of the ports before it:
      `"<port> (not bound)"` alone when it has no bindings, otherwise one
      `"<ip>:<hostport> -> <port>"` per binding, in binding order. */
  lemma PortFragmentsInPlace(ps: PortMap, i: nat)
    requires i < |ps|
    ensures FragmentCount(ps[..i]) + Weight(ps[i].1) <= |AllFragments(ps)|
    ensures ps[i].1 == [] ==>
              AllFragments(ps)[FragmentCount(ps[..i])] == ps[i].0 + " (not bound)"
    ensures forall j :: 0 <= j < |ps[i].1| ==>
              AllFragments(ps)[FragmentCount(ps[..i]) + j] == BindingFragment(ps[i].0, ps[i].1[j])
  {
    var port, bs := ps[i].0, ps[i].1;
    var pre, mine, post := AllFragments(ps[..i]), PortFragments(port, bs), AllFragments(ps[i + 1..]);
    AllFragmentsAround(ps, i);
    AllFragmentsCount(ps[..i]);
    if bs == [] {
      IndexMiddle(pre, mine, post, 0);
    } else {
      BindingFragmentsAt(port, bs);
      forall j | 0 <= j < |bs|
        ensures AllFragments(ps)[FragmentCount(ps[..i]) + j] == BindingFragment(port, bs[j])
      {
        IndexMiddle(pre, mine, post, j);
      }
    }
  }

  /** The fragments of a mapping are those of the ports before `i`, then
      those of port `i`, then those of the ports after it. */
  lemma AllFragmentsAround(ps: PortMap, i: nat)
    requires i < |ps|
    ensures AllFragments(ps)
            == AllFragments(ps[..i]) + PortFragments(ps[i].0, ps[i].1) + AllFragments(ps[i + 1..])
  {
    AllFragmentsCut(ps, i);
    AllFragmentsFrom(ps, i);
    AppendAssoc(AllFragments(ps[..i]), PortFragments(ps[i].0, ps[i].1), AllFragments(ps[i + 1..]));
  }

  /** Cutting a mapping at `i` cuts its fragments at the same port. */
  lemma AllFragmentsCut(ps: PortMap, i: nat)
    requires i <= |ps|
    ensures AllFragments(ps) == AllFragments(ps[..i]) + AllFragments(ps[i..])
  {
    assert ps[..i] + ps[i..] == ps;
    AllFragmentsSplit(ps[..i], ps[i..]);
  }

  /** The ports from `i` on start with port `i`'s fragments. */
  lemma AllFragmentsFrom(ps: PortMap, i: nat)
    requires i < |ps|
    ensures AllFragments(ps[i..]) == PortFragments(ps[i].0, ps[i].1) + AllFragments(ps[i + 1..])
  {
    var from := ps[i..];
    assert from[0] == ps[i] && from[1..] == ps[i + 1..];
    AllFragmentsFront(from);
  }

  /** The first port of a mapping puts its fragments in front of the others. */
  lemma AllFragmentsFront(ps: PortMap)
    requires ps != []
    ensures AllFragments(ps) == PortFragments(ps[0].0, ps[0].1) + AllFragments(ps[1..])
  {
    var first, rest := [ps[0]], ps[1..];
    assert first + rest == ps;
    AllFragmentsSplit(first, rest);
    assert AllFragments(first) == PortFragments(ps[0].0, ps[0].1) by { assert first[..0] == []; }
  }

  /** The element at offset `j` of the middle piece of a concatenation. */
  lemma IndexMiddle<T>(a: seq<T>, m: seq<T>, z: seq<T>, j: nat)
    requires j < |m|
    ensures |a| + j < |a + m + z| && (a + m + z)[|a| + j] == m[j]
  {
  }

  /** Every fragment holds a ':' or a ')'. */
  lemma FragmentsMarked(ps: PortMap)
    ensures forall k :: 0 <= k < |AllFragments(ps)| ==> Marked(AllFragments(ps)[k])
  {
    forall k | 0 <= k < |AllFragments(ps)| ensures Marked(AllFragments(ps)[k]) {
      var i, j := PortOfFragment(ps, k);
      PortFragmentsInPlace(ps, i);
      var port, bs := ps[i].0, ps[i].1;
      if bs == [] {
        var f := UnboundFragment(port);
        assert f[|f| - 1] == ')';
      } else {
        var ip := GetOr(bs[j].hostIp, "0.0.0.0");
        var f := BindingFragment(port, bs[j]);
        assert f[|ip|] == ':';
      }
    }
  }

  /** Which port, and which of its bindings, fragment `k` comes from. */
  lemma {:induction false} PortOfFragment(ps: PortMap, k: nat) returns (i: nat, j: nat)
    requires k < |AllFragments(ps)|
    ensures i < |ps| && j < Weight(ps[i].1)
    ensures k == FragmentCount(ps[..i]) + j
    decreases |ps|
  {
    var init, last := ps[..|ps| - 1], ps[|ps| - 1];
    AllFragmentsCount(init);
    if k < |AllFragments(init)| {
      i, j := PortOfFragment(init, k);
      assert ps[..i] == init[..i];
    } else {
      i, j := |ps| - 1, k - |AllFragments(init)|;
      assert ps[..i] == init;
    }
  }

  /** For a non-empty mapping `_format_ports` never answers "None": every
      port contributes a fragment, and the joined text holds a ':' or a ')'. */
  lemma FormatPortsMarked(ps: PortMap)
    requires ps != []
    ensures Marked(FormatPortsSpec(ps))
    ensures FormatPortsSpec(ps) != "None" && FormatPortsSpec(ps) != "No exposed ports"
  {
    var fs := AllFragments(ps);
    FragmentsMarked(ps);
    JoinSpec(fs, ", ");
    MarkedPrefix(fs[0], Join(fs, ", "));
    assert !Marked("None") && !Marked("No exposed ports");
  }

  /** Each key is defaulted on its own: an absent `HostIp` reads "0.0.0.0" and
      an absent `HostPort` reads "?", whatever the other key holds; a present
      key, even an empty one, is used as it is. */
  lemma BindingDefaults(port: string, ip: Option<string>, hostPort: Option<string>)
    ensures ip.None? ==>
              BindingFragment(port, Binding(ip, hostPort)) == "0.0.0.0:" + GetOr(hostPort, "?") + " -> " + port
    ensures hostPort.None? ==>
              BindingFragment(port, Binding(ip, hostPort)) == GetOr(ip, "0.0.0.0") + ":? -> " + port
    ensures ip.Some? && hostPort.Some? ==>
              BindingFragment(port, Binding(ip, hostPort)) == ip.value + ":" + hostPort.value + " -> " + port
  {
  }

  // ---------------------------------------------------------------------------
  // list_running_containers
  // ---------------------------------------------------------------------------

  const NoContainers := "No running containers found."
  // The two error prefixes are each written as two literals joined by `+`;
  // the verifier reads the characters of a shorter literal but not of one this
  // long, and `ErrorsRecoverable` tells the prefixes apart by their characters.
  const DockerErrorPrefix := "Error: Unable to connect to Docker daemon." + " Is Docker running? Details: "
  const OtherErrorPrefix := "Error: An unexpected error occurred " + "while listing containers: "

  /** The image shown: the first tag if the image has tags, else its short id. */
  function DisplayImage(c: ContainerSummary): string {
    if |c.imageTags| > 0 then c.imageTags[0] else c.imageShortId
  }

  /** The Ports line's text: "No exposed ports" exactly when the mapping is
      empty, otherwise the formatted mapping. */
  function PortsField(c: ContainerSummary): string {
    if |c.ports| > 0 then FormatPortsSpec(c.ports) else "No exposed ports"
  }

  /** The Ports text is "No exposed ports" exactly when the mapping is empty;
      otherwise it is what `_format_ports` makes of the mapping. */
  lemma PortsFieldCases(c: ContainerSummary)
    ensures PortsField(c) == "No exposed ports" <==> c.ports == []
    ensures c.ports != [] ==> PortsField(c) == FormatPortsSpec(c.ports)
  {
    if c.ports != [] {
      FormatPortsMarked(c.ports);
    }
  }

  /** The block one container adds to the report: five lines and a blank one. */
  function Block(c: ContainerSummary): string {
    ("Container: " + c.name + "\n")
    + ("  ID: " + c.shortId + "\n")
    + ("  Image: " + DisplayImage(c) + "\n")
    + ("  Status: " + c.status + "\n")
    + ("  Ports: " + PortsField(c) + "\n")
    + "\n"
  }

  /** Everything of a container's block up to the colon of its Ports line. */
  function BlockHead(c: ContainerSummary): string {
    ("Container: " + c.name + "\n")
    + ("  ID: " + c.shortId + "\n")
    + ("  Image: " + DisplayImage(c) + "\n")
    + ("  Status: " + c.status + "\n")
    + "  Ports:"
  }

  lemma BlockAtPorts(c: ContainerSummary)
    ensures Block(c) == BlockHead(c) + (" " + PortsField(c) + "\n\n")
  {
    var info := ("Container: " + c.name + "\n")
                + ("  ID: " + c.shortId + "\n")
                + ("  Image: " + DisplayImage(c) + "\n")
                + ("  Status: " + c.status + "\n");
    var p := PortsField(c);
    var line := "  Ports: " + p + "\n";
    var tail := " " + p + "\n\n";
    assert line + "\n" == "  Ports:" + tail;
    AppendAssoc(info, line, "\n");
    AppendAssoc(info, "  Ports:", tail);
  }

  lemma AppendAssoc<T>(a: seq<T>, b: seq<T>, c: seq<T>)
    ensures (a + b) + c == a + (b + c)
  {
  }

  /** A sequence is its elements before `k`, element `k`, then those after it. */
  lemma SplitAround<T>(s: seq<T>, k: nat)
    requires k < |s|
    ensures s == s[..k] + ([s[k]] + s[k + 1..])
  {
    assert [s[k]] + s[k + 1..] == s[k..];
  }

  /** Appending six pieces one by one appends their concatenation. */
  lemma AppendSix(r: string, a: string, b: string, c: string, d: string, e: string, f: string)
    ensures r + a + b + c + d + e + f == r + (a + b + c + d + e + f)
  {
  }

  /** The blocks of `cs`, in input order. */
  function Blocks(cs: seq<ContainerSummary>): string {
    if cs == [] then "" else Blocks(cs[..|cs| - 1]) + Block(cs[|cs| - 1])
  }

  /** The header line and the blank line after it. */
  function Header(n: nat): string {
    "Found " + Decimal(n) + " running container(s):\n\n"
  }

  /** The report for a successful query, after `str.strip()`. */
  function Listing(cs: seq<ContainerSummary>): string {
    if cs == [] then NoContainers else Strip(Header(|cs|) + Blocks(cs))
  }

  /** The string an exception is turned into. */
  function ErrorMessage(e: Err): string {
    match e
    case DockerErr(msg) => DockerErrorPrefix + msg
    case OtherErr(msg) => OtherErrorPrefix + msg
  }

  /** What `list_running_containers()` returns for a given daemon answer. */
  function ListingOutcome(daemon: Result<seq<ContainerSummary>, Err>): string {
    match daemon
    case Ok(cs) => Listing(cs)
    case Failure(e) => ErrorMessage(e)
  }

  /** `list_running_containers`, with the daemon's answer as input: a
      successful query is rendered, a caught `Exception` becomes its error
      string. */
  method ListRunningContainers(daemon: Result<seq<ContainerSummary>, Err>) returns (out: string)
    ensures out == ListingOutcome(daemon)
  {
    match daemon
    case Failure(DockerErr(msg)) =>
      out := DockerErrorPrefix + msg;
    case Failure(OtherErr(msg)) =>
      out := OtherErrorPrefix + msg;
    case Ok(containers) =>
      out := RenderContainers(containers);
  }

  /** The success path of `list_running_containers`: grows the report block
      by block, then strips it. */
  method RenderContainers(containers: seq<ContainerSummary>) returns (out: string)
    ensures out == Listing(containers)
  {
    if |containers| == 0 {
      return "No running containers found.";
    }
    var result := "Found " + Decimal(|containers|) + " running container(s):\n\n";
    for i := 0 to |containers|
      invariant Rendered(containers, i, result)
    {
      var container := containers[i];
      var containerId := container.shortId;
      var name := container.name;
      var image := if |container.imageTags| > 0 then container.imageTags[0]
                   else container.imageShortId;
      var status := container.status;
      var ports := container.ports;
      assert image == DisplayImage(container);
      var portsStr;
      if |ports| > 0 {
        portsStr := FormatPorts(ports);
      } else {
        portsStr := "No exposed ports";
      }
      assert portsStr == PortsField(container);
      ghost var before := result;
      result := result + ("Container: " + name + "\n");
      result := result + ("  ID: " + containerId + "\n");
      result := result + ("  Image: " + image + "\n");
      result := result + ("  Status: " + status + "\n");
      result := result + ("  Ports: " + portsStr + "\n");
      result := result + "\n";
      AppendBlock(containers, i, before, image, portsStr, result);
    }
    assert containers[..|containers|] == containers;
    out := Strip(result);
  }

  /** `text` is the report so far: the header and the blocks of the first
      `i` containers. */
  predicate Rendered(cs: seq<ContainerSummary>, i: nat, text: string)
    requires i <= |cs|
  {
    text == Header(|cs|) + Blocks(cs[..i])
  }

  /** Appending the six lines of the next container's block extends the
      report by exactly that container's block. */
  lemma AppendBlock(cs: seq<ContainerSummary>, i: nat, before: string, image: string,
                    portsText: string, after: string)
    requires i < |cs|
    requires Rendered(cs, i, before)
    requires image == DisplayImage(cs[i]) && portsText == PortsField(cs[i])
    requires after == before + ("Container: " + cs[i].name + "\n")
                     + ("  ID: " + cs[i].shortId + "\n") + ("  Image: " + image + "\n")
                     + ("  Status: " + cs[i].status + "\n") + ("  Ports: " + portsText + "\n")
                     + "\n"
    ensures Rendered(cs, i + 1, after)
  {
    var c, header, done := cs[i], Header(|cs|), Blocks(cs[..i]);
    assert after == before + Block(c) by {
      AppendSix(before, "Container: " + c.name + "\n", "  ID: " + c.shortId + "\n",
                "  Image: " + image + "\n", "  Status: " + c.status + "\n",
                "  Ports: " + portsText + "\n", "\n");
      BlockPieces(c, image, portsText);
    }
    assert Blocks(cs[..i + 1]) == done + Block(c) by {
      assert cs[..i + 1][..i] == cs[..i];
    }
    assert before == header + done;
    AppendAssoc(header, done, Block(c));
  }

  /** A block is its six lines, given the image and Ports text it shows. */
  lemma BlockPieces(c: ContainerSummary, image: string, portsText: string)
    requires image == DisplayImage(c) && portsText == PortsField(c)
    ensures Block(c)
            == ("Container: " + c.name + "\n") + ("  ID: " + c.shortId + "\n")
               + ("  Image: " + image + "\n") + ("  Status: " + c.status + "\n")
               + ("  Ports: " + portsText + "\n") + "\n"
  {
  }

  /** Container `k`'s block sits between the blocks of the containers before
      it and those after it, and shows, in order, the name, the short id, the
      first image tag (or the image's short id when it has no tags), the status
      and the Ports text. */
  lemma BlockInPlace(cs: seq<ContainerSummary>, k: nat)
    requires k < |cs|
    ensures Blocks(cs) == Blocks(cs[..k]) + Block(cs[k]) + Blocks(cs[k + 1..])
    ensures Block(cs[k])
            == ("Container: " + cs[k].name + "\n")
               + ("  ID: " + cs[k].shortId + "\n")
               + ("  Image: " + (if cs[k].imageTags != [] then cs[k].imageTags[0] else cs[k].imageShortId) + "\n")
               + ("  Status: " + cs[k].status + "\n")
               + ("  Ports: " + PortsField(cs[k]) + "\n")
               + "\n"
  {
    BlocksAround(cs, k);
  }

  /** The blocks of a list are those before container `k`, its own, then those after it. */
  lemma BlocksAround(cs: seq<ContainerSummary>, k: nat)
    requires k < |cs|
    ensures Blocks(cs) == Blocks(cs[..k]) + Block(cs[k]) + Blocks(cs[k + 1..])
  {
    var a, m, z := cs[..k], [cs[k]], cs[k + 1..];
    SplitAround(cs, k);
    BlocksSplit(a, m + z);
    BlocksSplit(m, z);
    assert Blocks(m) == Block(cs[k]) by {
      assert m[..|m| - 1] == [] && m[|m| - 1] == cs[k];
    }
    AppendAssoc(Blocks(a), Blocks(m), Blocks(z));
  }

  /** The blocks of a list split as the list does: input order is kept. */
  lemma {:induction false} BlocksSplit(a: seq<ContainerSummary>, b: seq<ContainerSummary>)
    ensures Blocks(a + b) == Blocks(a) + Blocks(b)
    decreases |b|
  {
    if b == [] {
      assert a + b == a;
    } else {
      var init, last := b[..|b| - 1], b[|b| - 1];
      assert (a + b)[..|a + b| - 1] == a + init;
      assert (a + b)[|a + b| - 1] == last;
      BlocksSplit(a, init);
      AppendAssoc(Blocks(a), Blocks(init), Block(last));
    }
  }

  /** A non-empty report is the header, every block but the last, and the
      last block whose Ports line has lost its trailing whitespace: the final
      `strip()` touches nothing else. */
  lemma ListingShape(cs: seq<ContainerSummary>)
    requires cs != []
    ensures Listing(cs)
            == Header(|cs|) + Blocks(cs[..|cs| - 1]) + BlockHead(cs[|cs| - 1])
               + TrimEnd(" " + PortsField(cs[|cs| - 1]) + "\n\n")
  {
    var h, b, last := Header(|cs|), Blocks(cs[..|cs| - 1]), cs[|cs| - 1];
    var bh, y := BlockHead(last), " " + PortsField(last) + "\n\n";
    var x := h + b + bh;
    assert h + Blocks(cs) == x + y by {
      BlockAtPorts(last);
      assert Blocks(cs) == b + (bh + y);
      AppendAssoc(b, bh, y);
      AppendAssoc(h, b + bh, y);
      AppendAssoc(h, b, bh);
    }
    assert x[0] == 'F' by { assert x[0] == h[0]; }
    assert x[|x| - 1] == ':' by { assert x[|x| - 1] == bh[|bh| - 1]; }
    assert !IsSpace('F') && !IsSpace(':');
    StripAfter(x, y);
  }

  /** At the end of the report `strip()` removes only the trailing whitespace
      of the last Ports text and the newlines after it: the Ports text itself
      survives, since it always holds a non-whitespace character. */
  lemma PortsTailTrimmed(c: ContainerSummary)
    ensures TrimEnd(PortsField(c)) != []
    ensures TrimEnd(" " + PortsField(c) + "\n\n") == " " + TrimEnd(PortsField(c))
  {
    PortsFieldNotBlank(c);
    assert AllSpace("\n\n");
    TrimEndPadded(" ", PortsField(c), "\n\n");
  }

  /** The Ports text is never all whitespace: it is "No exposed ports" or holds
      a ':' or a ')'. */
  lemma PortsFieldNotBlank(c: ContainerSummary)
    ensures !AllSpace(PortsField(c))
  {
    var p := PortsField(c);
    if |c.ports| > 0 {
      FormatPortsMarked(c.ports);
      if ':' in p {
        var k :| 0 <= k < |p| && p[k] == ':';
        assert !IsSpace(p[k]);
      } else {
        var k :| 0 <= k < |p| && p[k] == ')';
        assert !IsSpace(p[k]);
      }
    } else {
      assert !IsSpace(p[0]);
    }
  }

  /** A report for N >= 1 containers begins with "Found N running
      container(s):" and a blank line, and the N it shows reads back as the
      number of containers. */
  lemma ListingHeader(cs: seq<ContainerSummary>)
    requires cs != []
    ensures Header(|cs|) <= Listing(cs)
    ensures Header(|cs|) == "Found " + Decimal(|cs|) + " running container(s):\n\n"
    ensures AllDigits(Decimal(|cs|)) && DecimalValue(Decimal(|cs|)) == |cs|
  {
    ListingShape(cs);
    var h, b, bh := Header(|cs|), Blocks(cs[..|cs| - 1]), BlockHead(cs[|cs| - 1]);
    var t := TrimEnd(" " + PortsField(cs[|cs| - 1]) + "\n\n");
    AppendAssoc(h, b, bh);
    AppendAssoc(h, b + bh, t);
    PrefixOfAppend(h, b + bh + t);
    DecimalRoundTrip(|cs|);
  }

  lemma PrefixOfAppend(a: string, b: string)
    ensures a <= a + b
  {
  }

  /** The report ends with the last block's "  Ports:", a space and that
      block's Ports text less its own trailing whitespace: `strip()` removes
      nothing else. */
  lemma ListingEnds(cs: seq<ContainerSummary>)
    requires cs != []
    ensures Listing(cs)
            == Header(|cs|) + Blocks(cs[..|cs| - 1]) + BlockHead(cs[|cs| - 1])
               + (" " + TrimEnd(PortsField(cs[|cs| - 1])))
  {
    ListingShape(cs);
    PortsTailTrimmed(cs[|cs| - 1]);
  }

  /** Before `strip()` the report is the header, every block but the last,
      and the last block cut at its "  Ports:". */
  lemma ReportUnstripped(cs: seq<ContainerSummary>)
    requires cs != []
    ensures Header(|cs|) + Blocks(cs)
            == Header(|cs|) + Blocks(cs[..|cs| - 1]) + BlockHead(cs[|cs| - 1])
               + (" " + PortsField(cs[|cs| - 1]) + "\n\n")
  {
    var h, b, last := Header(|cs|), Blocks(cs[..|cs| - 1]), cs[|cs| - 1];
    var bh, tail := BlockHead(last), " " + PortsField(last) + "\n\n";
    assert Blocks(cs) == b + (bh + tail) by {
      BlockAtPorts(last);
    }
    AppendAssoc(b, bh, tail);
    AppendAssoc(h, b + bh, tail);
    AppendAssoc(h, b, bh);
  }

  /** When the last Ports text does not end in whitespace (as with "No exposed
      ports" or a port name such as "80/tcp"), the report is the header and
      every block, less the final blank line. */
  lemma ListingWhole(cs: seq<ContainerSummary>)
    requires cs != []
    requires var p := PortsField(cs[|cs| - 1]); p != [] && !IsSpace(p[|p| - 1])
    ensures Listing(cs) + "\n\n" == Header(|cs|) + Blocks(cs)
  {
    var last := cs[|cs| - 1];
    var x := Header(|cs|) + Blocks(cs[..|cs| - 1]) + BlockHead(last);
    var p := PortsField(last);
    assert TrimEnd(p) == p by {
      TrimEndAt(p, |p|);
      assert p[..|p|] == p;
    }
    ListingEnds(cs);
    ReportUnstripped(cs);
    AppendAssoc(x, " " + p, "\n\n");
  }

  /** The outcome classifier a caller could apply: which error, if any, a
      returned string reports. */
  function ParseError(s: string): Option<Err> {
    if DockerErrorPrefix <= s then Some(DockerErr(s[|DockerErrorPrefix|..]))
    else if OtherErrorPrefix <= s then Some(OtherErr(s[|OtherErrorPrefix|..]))
    else None
  }

  /** The returned text tells the outcomes apart: an error string gives back
      exactly the error kind and message, and a successful listing never reads
      as an error. */
  lemma ErrorsRecoverable(daemon: Result<seq<ContainerSummary>, Err>)
    ensures ParseError(ListingOutcome(daemon))
            == if daemon.Failure? then Some(daemon.error) else None
  {
    match daemon
    case Failure(DockerErr(msg)) =>
      var s := DockerErrorPrefix + msg;
      assert s[|DockerErrorPrefix|..] == msg;
    case Failure(OtherErr(msg)) =>
      var s := OtherErrorPrefix + msg;
      assert s[|OtherErrorPrefix|..] == msg;
      assert s[7] == OtherErrorPrefix[7] == 'A';
      assert DockerErrorPrefix[7] == 'U';
    case Ok(cs) =>
      var s := Listing(cs);
      if cs != [] {
        ListingHeader(cs);
        assert s[0] == Header(|cs|)[0] == 'F';
      } else {
        assert s[0] == 'N';
      }
      assert DockerErrorPrefix[0] == OtherErrorPrefix[0] == 'E';
  }

  /** The report for one container running nginx with 80/tcp published on
      0.0.0.0:8080, line by line. */
  lemma SingleContainerExample()
    ensures ListingOutcome(Ok([ContainerSummary("abc123", "web", ["nginx:latest"], "sha256:1",
                                                "running", [("80/tcp", [Binding(Some("0.0.0.0"), Some("8080"))])])]))
            == ("Found " + "1" + " running container(s):\n\n")
               + (("Container: " + "web" + "\n")
                  + ("  ID: " + "abc123" + "\n")
                  + ("  Image: " + "nginx:latest" + "\n")
                  + ("  Status: " + "running" + "\n")
                  + "  Ports:")
               + " " + ("0.0.0.0" + ":" + "8080" + " -> " + "80/tcp")
  {
    var c := ContainerSummary("abc123", "web", ["nginx:latest"], "sha256:1",
                              "running", [("80/tcp", [Binding(Some("0.0.0.0"), Some("8080"))])]);
    var bs := c.ports[0].1;
    var p := "0.0.0.0" + ":" + "8080" + " -> " + "80/tcp";
    assert bs[..0] == [];
    assert BindingFragments("80/tcp", bs) == [p];
    assert c.ports[..0] == [];
    assert AllFragments(c.ports) == [p];
    assert PortsField(c) == p;
    ListingShape([c]);
    assert [c][..0] == [];
    var h := Header(1);
    assert h + Blocks([]) == h;
    TrimEndAfter(" " + p, "\n\n");
    TrimEndAt("\n\n", 0);
    assert (" " + p) + "" == " " + p;
    AppendAssoc(h + BlockHead(c), " ", p);
    assert Decimal(1) == "1";
  }
}
