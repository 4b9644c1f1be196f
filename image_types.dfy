/** The values the image adapter works with: the framework's image record and
    enumerations, the caller's context, the catalog's DOM entries and the
    errors it raises. */
module ImageTypes {
  import opened Wrappers

  /** Owner id of images Microsoft publishes. */
  const MICROSOFT: string := "--microsoft--"
  /** Owner id of partner images. */
  const PUBLIC: string := "--public--"
  /** Owner id of Canonical's images. */
  const CANONICAL: string := "--Canonical--"
  /** The image collection of the management API. */
  const IMAGES: string := "/services/images"

  const NO_CONTEXT: string := "No context was specified for this request"

  /** The framework's Platform enumeration: the three members the adapter
      names, and any other member by its name. Named never carries the name
      of UNKNOWN, UNIX or WINDOWS, so each enumeration member is one value. */
  datatype Platform = Unknown | Unix | Windows | Named(name: string)

  /** The platform queries the framework supplies: the free-text guess and the
      two family tests. Their internals are not part of this model. */
  datatype PlatformLib = PlatformLib(
    guess: string -> Platform,
    isWindows: Platform -> bool,
    isUnix: Platform -> bool)

  datatype Architecture = I32 | I64

  datatype MachineImageState = Pending | Active | Deleted

  datatype MachineImageType = Volume | Storage

  /** An AzureMachineImage once toImage has filled it in. */
  datatype MachineImage = MachineImage(
    id: string,
    name: string,
    description: string,
    ownerId: string,
    regionId: string,
    state: MachineImageState,
    architecture: Architecture,
    platform: Platform,
    mediaLink: Option<string>,
    software: string,
    imageType: MachineImageType,
    tags: map<string, string>)

  /** The caller's ProviderContext: account number and region. */
  datatype Context = Context(accountNumber: string, regionId: string)

  /** One child node of an OSImage element: its node name, whether it is a
      text node, whether it has children, and the value of its first child. */
  datatype Child = Child(nodeName: string, isText: bool, hasChildren: bool, firstText: string)

  /** One OSImage element, as the sequence of its child nodes. */
  type Entry = seq<Child>

  /** The exceptions the adapter raises. */
  datatype CloudError =
    | ConfigError(message: string)                                    // AzureConfigException
    | CloudFault(message: string)                                     // CloudException(message)
    | AuthenticationFault(httpCode: int, providerCode: string, message: string)

  /** The framework's VmState values; only STOPPED matters to the adapter. */
  datatype VmState = Pending | Running | Rebooting | Stopping | Paused | Stopped | Terminated

  datatype VirtualMachine = VirtualMachine(providerVirtualMachineId: string, currentState: VmState)

  /** A request handed to the HTTP transport. */
  datatype Request = Request(verb: string, account: string, path: string, body: string)
}
