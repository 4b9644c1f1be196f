/** imageVirtualMachine: the checks the public overload makes before it starts
    the capture, and the capture request the private overload posts. */
module ImageCapture {
  import opened Wrappers
  import opened Text
  import opened ImageTypes
  import Base64
  import Utf8

  // ---------------------------------------------------------------------------
  // The cloud service and role a virtual machine id names
  // ---------------------------------------------------------------------------

  /** An id that String.split(":") cuts into exactly two pieces names the
      service and the role; any other id serves as both. */
  function ServiceAndRole(vmId: string): (string, string) {
    var parts := JavaSplit(vmId, ':');
    if |parts| == 2 then (parts[0], parts[1]) else (vmId, vmId)
  }

  /** "service:role", with any number of trailing ':', names service and role. */
  lemma ServiceAndRoleOfPair(service: string, role: string, k: nat)
    requires ':' !in service && ':' !in role && role != []
    ensures ServiceAndRole(service + ":" + role + Repeat(':', k)) == (service, role)
  {
    assert service + ":" + role + Repeat(':', k) == service + [':'] + role + Repeat(':', k);
    SplitInTwoFromShape(service, ':', role, k);
  }

  /** Conversely, the id either serves as both or has exactly that shape. */
  lemma ServiceAndRoleCases(vmId: string)
    ensures var (service, role) := ServiceAndRole(vmId);
            (service == vmId && role == vmId) ||
            (':' !in service && ':' !in role && role != [] &&
             exists k: nat :: vmId == service + ":" + role + Repeat(':', k))
  {
    var parts := JavaSplit(vmId, ':');
    if |parts| == 2 {
      SplitInTwoHasShape(vmId, ':', parts[0], parts[1]);
      var k: nat :| vmId == parts[0] + [':'] + parts[1] + Repeat(':', k);
      assert vmId == parts[0] + ":" + parts[1] + Repeat(':', k);
    }
  }

  /** Ids that split in two, with and without trailing separators or a service. */
  lemma ServiceAndRolePairExamples()
    ensures ServiceAndRole("svc:role") == ("svc", "role")
    ensures ServiceAndRole("svc:role::") == ("svc", "role")
    ensures ServiceAndRole(":role") == ("", "role")
  {
    ServiceAndRoleOfPair("svc", "role", 0);
    assert "svc" + ":" + "role" + Repeat(':', 0) == "svc:role";
    ServiceAndRoleOfPair("svc", "role", 2);
    assert "svc" + ":" + "role" + Repeat(':', 2) == "svc:role::";
    ServiceAndRoleOfPair("", "role", 0);
    assert "" + ":" + "role" + Repeat(':', 0) == ":role";
  }

  /** Ids used whole: one ending in its only ':', and one without any. */
  lemma ServiceAndRoleWholeExamples()
    ensures ServiceAndRole("svc:") == ("svc:", "svc:")
    ensures ServiceAndRole("vm") == ("vm", "vm")
  {
    ServiceAndRoleNotPair("svc:");
    SplitAllFree("vm", ':');
  }

  /** An id ending in its only ':' does not split in two. */
  lemma ServiceAndRoleNotPair(s: string)
    requires |s| >= 1 && s[|s| - 1] == ':' && ':' !in s[..|s| - 1]
    ensures ServiceAndRole(s) == (s, s)
  {
    var parts := JavaSplit(s, ':');
    if |parts| == 2 {
      SplitInTwoHasShape(s, ':', parts[0], parts[1]);
      InnerSeparator(s, parts[0], parts[1]);
      assert false;
    }
  }

  /** In "p:q" followed by separators, with q not empty, the ':' after p is
      not the last character. */
  lemma InnerSeparator(s: string, p: string, q: string)
    requires q != [] && exists k: nat :: s == p + [':'] + q + Repeat(':', k)
    ensures |p| < |s| - 1 && s[..|s| - 1][|p|] == ':'
  {
    var k: nat :| s == p + [':'] + q + Repeat(':', k);
    assert s[|p|] == ':';
  }

  // ---------------------------------------------------------------------------
  // The request
  // ---------------------------------------------------------------------------

  /** The role instance's operations resource under the hosted services
      collection: hostedServices/service/deployments/service/roleInstances/role/Operations. */
  function CapturePath(hostedServices: string, service: string, role: string): string {
    hostedServices + ['/'] + DeploymentPath(service, role)
  }

  /** service/deployments/service/roleInstances/role/Operations */
  function DeploymentPath(service: string, role: string): string {
    service + ['/'] + ("deployments" + ['/'] + (service + ['/'] + RolePath(role)))
  }

  /** roleInstances/role/Operations */
  function RolePath(role: string): string {
    "roleInstances" + ['/'] + (role + ['/'] + "Operations")
  }

  /** Read as a path, the resource is the collection's segments followed by
      the service, its deployment (named after the service), the role and
      "Operations". */
  lemma CapturePathSegments(hostedServices: string, service: string, role: string)
    requires '/' !in service && '/' !in role
    ensures SplitAll(CapturePath(hostedServices, service, role), '/') ==
            SplitAll(hostedServices, '/') + [service, "deployments", service, "roleInstances", role, "Operations"]
  {
    DeploymentSegments(service, role);
    SplitAllAround(hostedServices, '/', DeploymentPath(service, role));
  }

  lemma RoleSegments(role: string)
    requires '/' !in role
    ensures SplitAll(RolePath(role), '/') == ["roleInstances", role, "Operations"]
  {
    SplitAllFree("Operations", '/');
    SplitAllWord(role, "Operations", '/');
    SplitAllWord("roleInstances", role + ['/'] + "Operations", '/');
  }

  lemma DeploymentSegments(service: string, role: string)
    requires '/' !in service && '/' !in role
    ensures SplitAll(DeploymentPath(service, role), '/') ==
            [service, "deployments", service, "roleInstances", role, "Operations"]
  {
    RoleSegments(role);
    SplitAllWord(service, RolePath(role), '/');
    SplitAllWord("deployments", service + ['/'] + RolePath(role), '/');
    SplitAllWord(service, "deployments" + ['/'] + (service + ['/'] + RolePath(role)), '/');
  }

  /** A separator-free word followed by the separator is the first piece. */
  lemma SplitAllWord(w: string, rest: string, sep: char)
    requires sep !in w
    ensures SplitAll(w + [sep] + rest, sep) == [w] + SplitAll(rest, sep)
  {
    SplitAllAround(w, sep, rest);
    SplitAllFree(w, sep);
  }

  const CAPTURE_HEAD: string :=
    "<CaptureRoleOperation xmlns=\"http://schemas.microsoft.com/windowsazure\" xmlns:i=\"http://www.w3.org/2001/XMLSchema-instance\">"
    + "<OperationType>CaptureRoleOperation</OperationType>\n"
    + "<PostCaptureAction>Delete</PostCaptureAction>\n"
    + "<TargetImageLabel>"
  const CAPTURE_MIDDLE: string := "</TargetImageLabel>\n" + "<TargetImageName>"
  const CAPTURE_TAIL: string := "</TargetImageName>\n" + "</CaptureRoleOperation>\n"

  /** The CaptureRoleOperation body; label and name are copied in unescaped. */
  function CaptureXml(imageLabel: string, name: string): string {
    CAPTURE_HEAD + (imageLabel + (CAPTURE_MIDDLE + name)) + CAPTURE_TAIL
  }

  /** The label and name read back from a capture body: None unless the body
      is the CaptureRoleOperation envelope around two texts without markup. */
  function ParseCaptureXml(xml: string): Option<(string, string)> {
    match Unwrap(xml, CAPTURE_HEAD, CAPTURE_TAIL)
    case None => None
    case Some(inner) =>
      var imageLabel := TextBefore(inner, '<');
      match Unwrap(inner[|imageLabel|..], CAPTURE_MIDDLE, [])
      case None => None
      case Some(name) => if '<' in name then None else Some((imageLabel, name))
  }

  lemma ParseCaptureXmlOfBody(imageLabel: string, name: string)
    requires '<' !in imageLabel && '<' !in name
    ensures ParseCaptureXml(CaptureXml(imageLabel, name)) == Some((imageLabel, name))
  {
    var rest := CAPTURE_MIDDLE + name;
    var inner := imageLabel + rest;
    UnwrapIff(CaptureXml(imageLabel, name), CAPTURE_HEAD, inner, CAPTURE_TAIL);
    assert rest[0] == '<';
    TextBeforeOf(imageLabel, rest, '<');
    assert inner[|imageLabel|..] == rest;
    assert rest == CAPTURE_MIDDLE + name + [];
    UnwrapIff(rest, CAPTURE_MIDDLE, name, []);
  }

  lemma ParseCaptureXmlGivesBody(xml: string, imageLabel: string, name: string)
    requires ParseCaptureXml(xml) == Some((imageLabel, name))
    ensures xml == CaptureXml(imageLabel, name) && '<' !in imageLabel && '<' !in name
  {
    var inner := Unwrap(xml, CAPTURE_HEAD, CAPTURE_TAIL).value;
    UnwrapIff(xml, CAPTURE_HEAD, inner, CAPTURE_TAIL);
    var rest := inner[|imageLabel|..];
    UnwrapIff(rest, CAPTURE_MIDDLE, name, []);
    assert inner == imageLabel + rest;
    assert rest == CAPTURE_MIDDLE + name;
  }

  /** The capture body carries the label and the name and nothing else:
      reading it back gives them exactly when neither holds a '<'. */
  lemma ParseCaptureXmlIff(xml: string, imageLabel: string, name: string)
    ensures ParseCaptureXml(xml) == Some((imageLabel, name)) <==>
            xml == CaptureXml(imageLabel, name) && '<' !in imageLabel && '<' !in name
  {
    if xml == CaptureXml(imageLabel, name) && '<' !in imageLabel && '<' !in name {
      ParseCaptureXmlOfBody(imageLabel, name);
    }
    if ParseCaptureXml(xml) == Some((imageLabel, name)) {
      ParseCaptureXmlGivesBody(xml, imageLabel, name);
    }
  }

  /** The label: the description's UTF-8 octets in base64. */
  function CaptureLabel(description: string): string {
    Base64.Encode(Utf8.Encode(description))
  }

  /** What the capture thread completes with: the POST it hands to the
      transport, and the image id it returns (the requested name). */
  datatype Capture = Capture(post: Request, imageId: string)

  const NO_CONTEXT_SET: string := "No context was set for this request"

  /** The private overload, run by the capture thread. */
  function CaptureOutcome(ctx: Option<Context>, vm: VirtualMachine, name: string, description: string,
                          hostedServices: string): Result<Capture, CloudError>
  {
    match ctx
    case None => Err(ConfigError(NO_CONTEXT_SET))
    case Some(c) =>
      var (service, role) := ServiceAndRole(vm.providerVirtualMachineId);
      var post := Request("POST", c.accountNumber, CapturePath(hostedServices, service, role),
                          CaptureXml(CaptureLabel(description), name));
      Ok(Capture(post, name))
  }

  /** The task the public overload returns; the thread completes it with the
      outcome of the private overload. */
  datatype CaptureTask = CaptureTask(outcome: Result<Capture, CloudError>)

  /** The public overload. vm is what the virtual machine support returns for
      vmId (None: null); ctx is the context when the thread runs. */
  function ImageVirtualMachine(vmId: string, vm: Option<VirtualMachine>, ctx: Option<Context>,
                               name: string, description: string, hostedServices: string)
    : (r: Result<CaptureTask, CloudError>)
    ensures r.Err? <==> vm.None? || vm.value.currentState != Stopped
    ensures vm.None? ==> r == Err(CloudFault("No such virtual machine: " + vmId))
    ensures vm.Some? && vm.value.currentState != Stopped ==>
            r == Err(CloudFault("The server must be paused in order to create an image."))
  {
    if vm.None? then Err(CloudFault("No such virtual machine: " + vmId))
    else if vm.value.currentState != Stopped then Err(CloudFault("The server must be paused in order to create an image."))
    else Ok(CaptureTask(CaptureOutcome(ctx, vm.value, name, description, hostedServices)))
  }

  // ---------------------------------------------------------------------------
  // Properties
  // ---------------------------------------------------------------------------

  /** The label never holds markup, whatever the description. */
  lemma CaptureLabelIsPlain(description: string)
    ensures '<' !in CaptureLabel(description) && '&' !in CaptureLabel(description)
  {
    Base64.EncodeHasNoMarkup(Utf8.Encode(description));
  }

  /** A stopped machine and a context give a task that posts to the account,
      returns the name, and whose body gives back the name and, through
      base64 and UTF-8, the description. */
  lemma CaptureCarriesRequest(vmId: string, vm: VirtualMachine, ctx: Context, name: string,
                              description: string, hostedServices: string)
    requires vm.currentState == Stopped
    requires '<' !in name
    ensures var r := ImageVirtualMachine(vmId, Some(vm), Some(ctx), name, description, hostedServices);
            r.Ok? && r.value.outcome.Ok? &&
            var capture := r.value.outcome.value;
            && capture.imageId == name
            && capture.post.verb == "POST"
            && capture.post.account == ctx.accountNumber
            && ParseCaptureXml(capture.post.body) == Some((CaptureLabel(description), name))
            && Base64.Decode(CaptureLabel(description)) == Some(Utf8.Encode(description))
            && Utf8.Decode(Utf8.Encode(description)) == Some(description)
  {
    CaptureLabelIsPlain(description);
    ParseCaptureXmlOfBody(CaptureLabel(description), name);
    Base64.DecodeEncode(Utf8.Encode(description));
    Utf8.DecodeEncode(description);
  }

  /** For an id "service:role" the request goes to that role's operations. */
  lemma CaptureTargetsRole(vm: VirtualMachine, ctx: Context, name: string, description: string,
                           hostedServices: string, service: string, role: string)
    requires ':' !in service && ':' !in role && role != []
    requires '/' !in service && '/' !in role
    requires vm.providerVirtualMachineId == service + ":" + role
    ensures CaptureOutcome(Some(ctx), vm, name, description, hostedServices).Ok?
    ensures SplitAll(CaptureOutcome(Some(ctx), vm, name, description, hostedServices).value.post.path, '/') ==
            SplitAll(hostedServices, '/') + [service, "deployments", service, "roleInstances", role, "Operations"]
  {
    ServiceAndRoleOfPair(service, role, 0);
    assert service + ":" + role + Repeat(':', 0) == service + ":" + role;
    CapturePathSegments(hostedServices, service, role);
  }

  /** Without a context the task fails with the configuration error and no
      request is made. */
  lemma CaptureNeedsContext(vmId: string, vm: VirtualMachine, name: string, description: string,
                            hostedServices: string)
    requires vm.currentState == Stopped
    ensures ImageVirtualMachine(vmId, Some(vm), None, name, description, hostedServices) ==
            Ok(CaptureTask(Err(ConfigError(NO_CONTEXT_SET))))
  {
  }
}
