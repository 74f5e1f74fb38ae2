// The deep-zoom viewer page (zoom.php): it builds the tile pyramid on first
// view when no descriptor exists yet, and points the viewer at the descriptor.

module ZoomPage {
  import opened Common
  import opened GalleryFiles
  import opened FileStore
  import opened DziGenerator
  import opened DziGeometry
  import ArtPage

  datatype View =
    | Redirect
    | NotFound
    | Viewer(filename: string, tileSource: string, ready: bool, generation: Option<Outcome>, title: string)

  /**
   * The page: the same gate as the artwork page, then generateDZI only when
   * the descriptor is missing, its success flag deciding whether the viewer
   * is ready.
   */
  method Show(fs: FileSystem, param: Option<string>) returns (view: View)
    modifies fs
    ensures view == Redirect <==> ArtPage.RequestedFile(param).None?
    ensures view == View.NotFound <==>
      ArtPage.RequestedFile(param).Some? && !old(fs.Exists(SourcePath(ArtPage.RequestedFile(param).value)))
    ensures !view.Viewer? || view.generation.None? ==> fs.entries == old(fs.entries)
    ensures view.Viewer? ==>
      && ArtPage.RequestedFile(param) == Some(view.filename)
      && old(fs.Exists(SourcePath(view.filename)))
      && view.tileSource == GetDziPath(view.filename)
      && view.title == PrettyTitle(Stem(view.filename))
      // a descriptor on disk, with or without its tiles, skips generation
      && (view.generation.None? <==> old(DziExists(fs.entries, view.filename)))
      && (view.generation.None? ==> view.ready)
      && (view.generation.Some? ==> view.ready == view.generation.value.Success())
      // generation is only asked for when the descriptor is absent, so it never short-circuits
      && (view.generation.Some? ==> view.generation.value != AlreadyExists && view.generation.value != Outcome.NotFound)
    // what generateDZI left on disk
    ensures view.Viewer? && view.generation.Some? ==>
      var out := view.generation.value;
      var pre := Prepared(old(fs.entries), Stem(view.filename));
      && (out.Generated? <==> BuildSucceeds(old(fs.entries), fs.failing, view.filename))
      && (out.Generated? ==>
            && SourceSize(pre, view.filename) == Some((out.width, out.height))
            && out.levels == MaxLevel(out.width, out.height) + 1
            && out.tiles == TotalTiles(out.width, out.height)
            && Published(fs.entries, pre, Stem(view.filename), Plan(out.width, out.height),
                         DescriptorXml(out.width, out.height)))
      && (out == DziDirFailed ==> fs.entries == old(fs.entries))
      && (out == FilesDirFailed ==> fs.entries == EnsureDir(old(fs.entries), DziDirPath()))
      && (out.LevelDirFailed? || out == ImagickFailed || out == DescriptorFailed ==>
            fs.entries == Prune(pre, FilesPath(Stem(view.filename))))
  {
    var requested := ArtPage.RequestedFile(param);
    if requested.None? {
      return Redirect;
    }
    var filename := requested.value;
    if !fs.Exists(SourcePath(filename)) {
      return View.NotFound;
    }
    var ready := fs.Exists(DescriptorPath(Stem(filename)));
    var generation: Option<Outcome> := None;
    if !ready {
      var out := GenerateDzi(fs, filename);
      ready := out.Success();
      generation := Some(out);
    }
    return Viewer(filename, GetDziPath(filename), ready, generation, PrettyTitle(Stem(filename)));
  }
}
