/** Where a page says it comes from (staging/aggregates.py, staging/public_safety.py):
    its source relative to the workspace, and its place in a source binding. */
module PageSources {
  import opened Options
  import opened Paths
  import opened Staging

  /** A source inside the workspace is shown relative to it; one outside, or a relative
      one that is empty or climbs, is not shown. */
  lemma ShownSource(workspace: Path, source: Source, shown: Path)
    ensures PublicSource(workspace, source) == RelativeSource(shown) <==>
      source == AbsoluteSource(workspace + shown) || (source == RelativeSource(shown) && shown != [] && ".." !in shown)
    ensures PublicSource(workspace, source).RelativeSource? || PublicSource(workspace, source).NoSource?
  {
    if source.AbsoluteSource? && workspace <= source.path {
      assert source.path == workspace + source.path[|workspace|..];
      assert (workspace + shown)[|workspace|..] == shown;
    }
  }

  /** A page lies in a source binding exactly when its path is a path beneath the root
      of the binding; a relative path starts from the workspace and must not climb. */
  lemma BoundSource(workspace: Path, binding: Binding, source: Source, key: string, place: Path)
    ensures ProvenanceOf(workspace, Some(binding), source) == Some(Provenance(key, place)) <==>
      && key == binding.key && place != []
      && (source == AbsoluteSource(binding.root + place)
          || (source.RelativeSource? && ".." !in source.path && workspace + source.path == binding.root + place))
  {
    if !source.NoSource? {
      var absolute := if source.AbsoluteSource? then source.path else workspace + source.path;
      assert (binding.root + place)[|binding.root|..] == place;
      if binding.root <= absolute { assert absolute == binding.root + absolute[|binding.root|..]; }
    }
  }

  /** Normalizing a page sets these two from its own source and the binding of its owner,
      and changes nothing else; a page without a binding lies in none. */
  lemma NormalizedPage(workspace: Path, bindings: map<PageOwner, Binding>, c: Contribution)
    ensures var n := NormalizePage(workspace, bindings, c);
      && n.(source := c.source, provenance := c.provenance) == c
      && n.source == PublicSource(workspace, c.source)
      && n.provenance == if c.owner in bindings then ProvenanceOf(workspace, Some(bindings[c.owner]), c.source) else None
  {
  }
}
