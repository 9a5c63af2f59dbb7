/**
 The parsed files of internal/types/extract.go and the analyses of
 internal/ssr/programs.go, as the maps they are kept in.
 */
module StampedCaches {
  import opened Wrappers
  import opened Stamps

  /** The parsed files; what stamping and reading the file gave are parameters. */
  class ParsedFiles {
    var files: map<string, Cached>

    constructor ()
      ensures files == map[]
    {
      files := map[];
    }

    predicate Holds(path: string, stamp: string)
      reads this
    {
      path in files && files[path].stamp == stamp
    }

    /** Nothing is kept of a file that cannot be read; what is kept bears the stamp of its own read. */
    method File(path: string, current: Option<string>, source: Option<Version>) returns (r: Option<Cached>)
      modifies this
      ensures current.Some? && old(Holds(path, current.value)) ==> r == Some(old(files)[path]) && files == old(files)
      ensures current.None? ==> r == None && files == old(files)
      ensures current.Some? && !old(Holds(path, current.value)) ==>
        match source
        case Some(Present(text, stamp)) =>
          r == Some(Cached(stamp, Some(text))) && files == old(files)[path := Cached(stamp, Some(text))]
        case _ => r == None && files == old(files)
    {
      if current.None? { return None; }
      if path in files && files[path].stamp == current.value { return Some(files[path]); }
      if source.None? || source.value.Gone? { return None; }
      var f := Cached(source.value.stamp, Some(source.value.text));
      files := files[path := f];
      return Some(f);
    }

    method Forget(path: string)
      modifies this
      ensures files == old(files) - {path}
    {
      files := files - {path};
    }
  }

  /** The analyses; a failure to read is an analysis too. */
  class Programs {
    var entries: map<string, Cached>

    constructor ()
      ensures entries == map[]
    {
      entries := map[];
    }

    predicate Holds(component: string, stamp: string)
      reads this
    {
      component in entries && entries[component].stamp == stamp
    }

    /** What is kept bears the stamp taken before the file was read. */
    method Get(component: string, current: Option<string>, source: Version) returns (r: Option<Cached>)
      modifies this
      ensures current.None? ==> r == None && entries == old(entries)
      ensures current.Some? && old(Holds(component, current.value)) ==>
        r == Some(old(entries)[component]) && entries == old(entries)
      ensures current.Some? && !old(Holds(component, current.value)) ==>
        var kept := LoadedOf(Policy(true, false), current.value, source);
        r == Some(kept) && entries == old(entries)[component := kept]
    {
      if current.None? { return None; }
      if component in entries && entries[component].stamp == current.value { return Some(entries[component]); }
      var entry := Cached(current.value, TextOf(source));
      entries := entries[component := entry];
      return Some(entry);
    }

    method Forget(component: string)
      modifies this
      ensures entries == old(entries) - {component}
    {
      entries := entries - {component};
    }
  }
}
