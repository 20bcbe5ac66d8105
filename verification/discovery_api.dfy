/** The discovery service's interface types as the modelled code uses them: a registered
    instance (type, group and name locate it; properties are stored under it) and the two
    ways registration can fail. */
module DiscoveryApi {

  datatype Instance = Instance(kind: string, group: string, name: string,
                               properties: map<string, string>, configDiscoverable: bool)

  /** DuplicateName: an instance with that path exists; IOException: any other failure. */
  datatype RegisterError = DuplicateName | IOException
}
