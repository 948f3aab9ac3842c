/** The part of a resolved plan that ownership, dirty-path attribution and
    redirects read (planning/types.py), and the public path of a version context. */
module Plan {
  import opened Options
  import opened Paths

  datatype Alias = Alias(origin: Option<string>, path: string)

  datatype Redirect = Redirect(fromOrigin: Option<string>, fromPath: string, target: string)

  datatype Publication = Publication(
    origin: string, componentPath: string, developmentPath: string, docsPath: string, assetsPath: string,
    canonicalPath: Option<string>, aliases: seq<Alias>, redirects: seq<Redirect>)

  datatype Component = Component(
    slug: string, publication: Publication, metadataFile: Option<Path>, pagesRoot: Option<Path>,
    assetsRoot: Option<Path>, contentSource: Option<Path>)

  datatype Kind = Development | NamedRef | LineHead | Candidate | Released

  datatype Context = Context(
    slug: string, artifact: Option<string>, kind: Kind, version: Option<string>, releaseLine: Option<string>,
    namedRef: Option<string>, redirectsWhenWithdrawn: bool, redirectTarget: Option<string>, ref: Option<string>,
    docsRoot: Path, assetsRoot: Option<Path>)

  datatype BuildPlan = BuildPlan(
    sitePagesRoot: Option<Path>, siteAssetsRoot: Option<Path>, vendorSources: seq<Path>,
    components: seq<Component>, contexts: seq<Context>)

  function FindComponent(components: seq<Component>, slug: string): Option<Component> {
    if components == [] then None
    else if components[|components| - 1].slug == slug then Some(components[|components| - 1])
    else FindComponent(components[..|components| - 1], slug)
  }

  predicate DistinctSlugs(components: seq<Component>) {
    forall i, j :: 0 <= i < j < |components| ==> components[i].slug != components[j].slug
  }

  /** Every context belongs to a component of the plan. */
  predicate ContextsKnown(components: seq<Component>, contexts: seq<Context>) {
    forall i :: 0 <= i < |contexts| ==> FindComponent(components, contexts[i].slug).Some?
  }

  /** How the host language formats an optional string. */
  function Show(text: Option<string>): string { if text.Some? then text.value else "None" }

  function PublicPath(publication: Publication, context: Context): string {
    match context.kind
    case Development => publication.developmentPath
    case NamedRef => publication.docsPath + "refs/" + Show(context.namedRef) + "/"
    case LineHead => publication.docsPath + Show(context.releaseLine) + "/"
    case Candidate => publication.docsPath + "candidates/" + Show(context.version) + "/"
    case Released =>
      (if publication.docsPath == publication.developmentPath then publication.componentPath else publication.docsPath)
      + "releases/" + Show(context.version) + "/"
  }
}
