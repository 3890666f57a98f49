/**
 * The values the parser reads from its collaborators: errors, group/version/kind identities,
 * decoded objects and synthesised CustomResourceDefinitions. Only the fields the parser reads or
 * writes are modelled; everything else about these objects belongs to the collaborators.
 */
module Objects {
  import opened Bytes

  /** An error returned by a collaborator. `EOF` is `io.EOF`, the only error the parser compares against. */
  datatype Error = EOF | Failure(message: string)

  /** `schema.GroupVersionKind` as returned by the decoder. */
  datatype GroupVersionKind = GroupVersionKind(group: string, version: string, kind: string)

  const ProviderGroup: string := "pkg.crossplane.io"
  const ProviderKind: string := "Provider"
  const DefinitionGroup: string := "apiextensions.crossplane.io"
  const DefinitionVersion: string := "v1"
  const DefinitionKind: string := "CompositeResourceDefinition"
  /** Package-internal metadata documents, never emitted from an unpacked package. */
  const MetaGroup: string := "meta.pkg.crossplane.io"
  const CrdKind: string := "CustomResourceDefinition"
  const CrdApiVersion: string := "apiextensions.k8s.io/v1"

  /** The first routing test of `handleResource`: a Provider of any version. */
  predicate IsProvider(gvk: GroupVersionKind)
  {
    gvk.group == ProviderGroup && gvk.kind == ProviderKind
  }

  /** The second routing test of `handleResource`: a v1 CompositeResourceDefinition. */
  predicate IsCompositeDefinition(gvk: GroupVersionKind)
  {
    gvk.version == DefinitionVersion && gvk.group == DefinitionGroup && gvk.kind == DefinitionKind
  }

  /** A CompositeResourceDefinition; its content is read only by the synthesiser. */
  datatype Definition = Definition(name: string, spec: Bytes)

  /** The decoded `runtime.Object`: a Provider, an XRD, or anything else. */
  datatype Object =
    | Provider(name: string, package: string)
    | CompositeResourceDefinition(definition: Definition)
    | OtherObject

  datatype Decoded = Decoded(obj: Object, gvk: GroupVersionKind)

  /**
   * The object's Go type agrees with the branch its GVK selects, so that the type assertions
   * `obj.(*crossplanev1.Provider)` and `obj.(*crossplaneapiextv1.CompositeResourceDefinition)`
   * succeed. The decoder built from the scheme of main.go guarantees this.
   */
  predicate TypedAsRouted(d: Decoded)
  {
    (IsProvider(d.gvk) ==> d.obj.Provider?) &&
    (IsCompositeDefinition(d.gvk) ==> d.obj.CompositeResourceDefinition?)
  }

  /** What a successful `Decoder.Decode` returns. */
  type Decoding = d: Decoded | TypedAsRouted(d) witness Decoded(OtherObject, GroupVersionKind("", "", ""))

  /** The CustomResourceDefinition produced by `xcrd.ForCompositeResource`. */
  datatype Crd = Crd(kind: string, apiVersion: string, spec: Bytes)

  /** The rewrite of parser.go:140-141: the type meta is set to the canonical CRD identity. */
  function Retyped(crd: Crd): (r: Crd)
    ensures r.kind == CrdKind && r.apiVersion == CrdApiVersion
    ensures r.spec == crd.spec
  {
    crd.(kind := CrdKind, apiVersion := CrdApiVersion)
  }

  /** No GVK takes both branches: the two groups differ. */
  lemma RoutesAreDisjoint(gvk: GroupVersionKind)
    ensures !(IsProvider(gvk) && IsCompositeDefinition(gvk))
  {
    assert ProviderGroup[0] != DefinitionGroup[0];
  }
}
