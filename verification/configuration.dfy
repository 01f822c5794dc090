/**
 * The parts of the stored configuration the modelled code reads
 * (`configuration.rs` is not part of this model; only the fields used here
 * are kept).
 */
module Configuration {
  import opened Wrappers

  /** The schema-registry section of a cluster configuration. */
  datatype RegistryConfig = RegistryConfig(endpoint: string, username: Option<string>, password: Option<string>)

  /** One configured cluster: its id, its bootstrap endpoint, and an optional schema registry. */
  datatype ClusterConfig = ClusterConfig(id: string, endpoint: string, schemaRegistry: Option<RegistryConfig>)
}
