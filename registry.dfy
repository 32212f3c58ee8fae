/**
 * The catalog entry and the three registry records (API, Version, Spec) that
 * describeAPI derives from it. Serialising the records as YAML is not modelled.
 */
module Registry {
  import opened Strings

  /** The `provider` variable. */
  const Provider := "google.com"

  /** The `source` variable. */
  const Source := "import-google-apis"

  /** encoding.RegistryV1, the schema version written in every header. */
  const RegistryV1 := "apigeeregistry/v1"

  /** The spec id (`specID`). */
  const SpecId := "protos"

  const HostSuffix := ".googleapis.com"

  /** One entry of api-index-v1.json (ApiIndexEntry). */
  datatype ApiIndexEntry = ApiIndexEntry(
    id: string,
    directory: string,
    version: string,
    majorVersion: string,
    hostName: string,
    title: string,
    description: string,
    importDirectories: seq<string>,
    configFile: string,
    nameInServiceConfig: string)

  /** The labels map of a record, whose keys are always "provider", "updated" and "source". */
  datatype Labels = Labels(provider: string, updated: string, source: string)

  /** The annotations map: "config", "directory" and "host" on a Spec, none elsewhere. */
  datatype Annotations = NoAnnotations | SpecAnnotations(config: string, directory: string, host: string)

  datatype Metadata = Metadata(
    parent: string,
    name: string,
    labels: Labels,
    annotations: Annotations)

  datatype Header = Header(apiVersion: string, kind: string, metadata: Metadata)

  datatype Data =
    | ApiSpecData(fileName: string, mimeType: string)
    | ApiVersionData(versionDisplayName: string)
    | ApiData(displayName: string)

  datatype Record = Record(header: Header, data: Data)

  /** The API id: the service name without one trailing ".googleapis.com". */
  function ApiId(entry: ApiIndexEntry): string
  {
    TrimSuffix(entry.nameInServiceConfig, HostSuffix)
  }

  /** The API id is the service name less ".googleapis.com" when it ends so, and the whole name otherwise. */
  lemma ApiIdTrims(entry: ApiIndexEntry)
    ensures HasSuffix(entry.nameInServiceConfig, HostSuffix) ==> ApiId(entry) + HostSuffix == entry.nameInServiceConfig
    ensures !HasSuffix(entry.nameInServiceConfig, HostSuffix) ==> ApiId(entry) == entry.nameInServiceConfig
  {
  }

  /** The labels every record of a run carries; `updated` is the date the run started. */
  function RunLabels(updated: string): Labels
  {
    Labels(ReplaceChar(Provider, '.', '-'), updated, Source)
  }

  /** The name of the API record, and so of the API. */
  function ApiName(entry: ApiIndexEntry): string
  {
    Provider + "-" + ApiId(entry)
  }

  /** The parent of the Version record: the API. */
  function VersionParent(entry: ApiIndexEntry): string
  {
    "apis/" + ApiName(entry)
  }

  /** The parent of the Spec record: the Version. */
  function SpecParent(entry: ApiIndexEntry): string
  {
    VersionParent(entry) + "/versions/" + entry.version
  }

  function SpecRecord(entry: ApiIndexEntry, updated: string): Record
  {
    Record(
      Header(RegistryV1, "Spec", Metadata(
        SpecParent(entry),
        SpecId,
        RunLabels(updated),
        SpecAnnotations(entry.configFile, entry.directory, entry.hostName))),
      ApiSpecData("protos.zip", "application/x.protobuf+zip"))
  }

  function VersionRecord(entry: ApiIndexEntry, updated: string): Record
  {
    Record(
      Header(RegistryV1, "Version", Metadata(VersionParent(entry), entry.version, RunLabels(updated), NoAnnotations)),
      ApiVersionData(entry.version))
  }

  function ApiRecord(entry: ApiIndexEntry, updated: string): Record
  {
    Record(
      Header(RegistryV1, "API", Metadata("", ApiName(entry), RunLabels(updated), NoAnnotations)),
      ApiData(DisplayName(entry.title)))
  }

  /** displayName: a title that does not start with "Google" gets "Google " in front. */
  function DisplayName(name: string): (r: string)
    ensures HasPrefix(r, "Google")
    ensures HasPrefix(name, "Google") ==> r == name
    ensures !HasPrefix(name, "Google") ==> r == "Google " + name
  {
    if !HasPrefix(name, "Google") then "Google " + name else name
  }

  /**
   * The three records are registry v1 documents of kinds Spec, Version and API;
   * the Spec describes the zipped protos and carries the entry's config,
   * directory and host, the Version is displayed as its version id and the
   * API under its Google display title.
   */
  lemma RecordContents(entry: ApiIndexEntry, updated: string)
    ensures SpecRecord(entry, updated).header.apiVersion == RegistryV1
    ensures VersionRecord(entry, updated).header.apiVersion == RegistryV1
    ensures ApiRecord(entry, updated).header.apiVersion == RegistryV1
    ensures SpecRecord(entry, updated).header.kind == "Spec"
    ensures VersionRecord(entry, updated).header.kind == "Version"
    ensures ApiRecord(entry, updated).header.kind == "API"
    ensures SpecRecord(entry, updated).data == ApiSpecData("protos.zip", "application/x.protobuf+zip")
    ensures SpecRecord(entry, updated).header.metadata.annotations ==
      SpecAnnotations(entry.configFile, entry.directory, entry.hostName)
    ensures VersionRecord(entry, updated).header.metadata.annotations == NoAnnotations
    ensures ApiRecord(entry, updated).header.metadata.annotations == NoAnnotations
    ensures VersionRecord(entry, updated).data == ApiVersionData(entry.version)
    ensures ApiRecord(entry, updated).header.metadata.parent == ""
    ensures ApiRecord(entry, updated).data.ApiData?
    ensures HasPrefix(ApiRecord(entry, updated).data.displayName, "Google")
    ensures HasPrefix(entry.title, "Google") ==> ApiRecord(entry, updated).data.displayName == entry.title
  {
  }

  lemma DisplayNameIdempotent(name: string)
    ensures DisplayName(DisplayName(name)) == DisplayName(name)
  {
  }

  /** Trimming undoes appending the host suffix. */
  lemma ApiIdOfHostName(entry: ApiIndexEntry, service: string)
    requires entry.nameInServiceConfig == service + HostSuffix
    ensures ApiId(entry) == service
  {
    assert HasSuffix(entry.nameInServiceConfig, HostSuffix) by {
      assert entry.nameInServiceConfig[|service|..] == HostSuffix;
    }
    ApiIdTrims(entry);
    assert ApiId(entry) + HostSuffix == service + HostSuffix;
    assert ApiId(entry) == (ApiId(entry) + HostSuffix)[..|ApiId(entry)|];
  }

  /**
   * The record identifiers are the source's concatenations: the API is
   * provider-apiID, the Version is apis/provider-apiID with the version as
   * name, and the Spec is "protos" under apis/provider-apiID/versions/version.
   */
  lemma RecordIdentifiers(entry: ApiIndexEntry, updated: string)
    ensures ApiRecord(entry, updated).header.metadata.name == Provider + "-" + ApiId(entry)
    ensures VersionRecord(entry, updated).header.metadata.parent == "apis/" + Provider + "-" + ApiId(entry)
    ensures VersionRecord(entry, updated).header.metadata.name == entry.version
    ensures SpecRecord(entry, updated).header.metadata.parent ==
      "apis/" + Provider + "-" + ApiId(entry) + "/versions/" + entry.version
    ensures SpecRecord(entry, updated).header.metadata.name == SpecId
  {
    var p, id, v := Provider, ApiId(entry), entry.version;
    var vp := "apis/" + p + "-" + id;
    assert "apis/" + (p + "-" + id) == vp;
    assert VersionParent(entry) == vp;
    assert SpecParent(entry) == vp + "/versions/" + v;
  }

  /**
   * The records form the registry's hierarchy: the Version's parent names the
   * API record, and the Spec's parent names the Version record under it.
   */
  lemma RecordHierarchy(entry: ApiIndexEntry, updated: string)
    ensures var api, version, spec :=
        ApiRecord(entry, updated).header.metadata, VersionRecord(entry, updated).header.metadata,
        SpecRecord(entry, updated).header.metadata;
      version.parent == "apis/" + api.name &&
      spec.parent == version.parent + "/versions/" + version.name
  {
  }

  /** All three records carry the same provider, updated and source labels. */
  lemma SharedLabels(entry: ApiIndexEntry, updated: string)
    ensures SpecRecord(entry, updated).header.metadata.labels == RunLabels(updated)
    ensures VersionRecord(entry, updated).header.metadata.labels == RunLabels(updated)
    ensures ApiRecord(entry, updated).header.metadata.labels == RunLabels(updated)
  {
  }

  /** The provider with its one '.' replaced; the provider is a parameter so that the verifier does not unfold the literal. */
  lemma DotsReplaced(p: string)
    requires p == "google.com"
    ensures ReplaceChar(p, '.', '-') == "google-com"
  {
    ReplaceCharSpec(p, '.', '-');
    var r := ReplaceChar(p, '.', '-');
    assert forall i :: 0 <= i < 10 ==> r[i] == "google-com"[i];
  }

  /** The provider label is the provider with '.' replaced by '-', so it has no '.'. */
  lemma ProviderLabel(updated: string)
    ensures RunLabels(updated).provider == "google-com"
    ensures '.' !in RunLabels(updated).provider
    ensures RunLabels(updated).updated == updated && RunLabels(updated).source == Source
  {
    ReplaceCharSpec(Provider, '.', '-');
    DotsReplaced(Provider);
  }

  lemma ExampleApiId(entry: ApiIndexEntry)
    requires entry.nameInServiceConfig == "foo.googleapis.com"
    ensures ApiId(entry) == "foo"
  {
    ApiIdOfHostName(entry, "foo");
  }

  lemma ExampleApiName(entry: ApiIndexEntry)
    requires ApiId(entry) == "foo"
    ensures ApiName(entry) == "google.com-foo"
  {
    assert ApiName(entry) == "google.com" + "-" + "foo";
  }

  lemma ExampleVersionParent(entry: ApiIndexEntry)
    requires ApiName(entry) == "google.com-foo"
    ensures VersionParent(entry) == "apis/google.com-foo"
  {
  }

  lemma ExampleSpecParent(entry: ApiIndexEntry)
    requires VersionParent(entry) == "apis/google.com-foo" && entry.version == "v1"
    ensures SpecParent(entry) == "apis/google.com-foo/versions/v1"
  {
  }

  /** The identifiers for the API "foo" (service "foo.googleapis.com") at version "v1". */
  lemma ExampleIdentifiers(entry: ApiIndexEntry, updated: string)
    requires entry.nameInServiceConfig == "foo.googleapis.com" && entry.version == "v1"
    ensures ApiRecord(entry, updated).header.metadata.name == "google.com-foo"
    ensures VersionRecord(entry, updated).header.metadata.parent == "apis/google.com-foo"
    ensures VersionRecord(entry, updated).header.metadata.name == "v1"
    ensures SpecRecord(entry, updated).header.metadata.parent == "apis/google.com-foo/versions/v1"
    ensures SpecRecord(entry, updated).header.metadata.name == "protos"
  {
    ExampleApiId(entry);
    ExampleApiName(entry);
    ExampleVersionParent(entry);
    ExampleSpecParent(entry);
  }
}
