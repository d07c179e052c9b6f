/** The navigation bar's highlighting of the current route. */
module Layout {
  import Seqs

  /** `isActive(path)`: the current pathname equals `path` or starts with it. */
  predicate IsActive(pathname: string, path: string) {
    pathname == path || Seqs.IsPrefix(path, pathname)
  }

  /** The equality test is subsumed: a route is active exactly when the pathname starts with it. */
  lemma ActiveIffPrefix(pathname: string, path: string)
    ensures IsActive(pathname, path) <==> Seqs.IsPrefix(path, pathname)
  {
    if pathname == path {
      assert pathname[..|path|] == pathname;
    }
  }

  /** The match is on characters, not path segments: "/todosX" activates "/todos". */
  lemma NotSegmentAware()
    ensures IsActive("/todosX", "/todos")
    ensures IsActive("/notes-archive", "/notes")
  {
    assert "/todosX"[..6] == "/todos";
    assert "/notes-archive"[..6] == "/notes";
  }

  /** "/" is active on every absolute path. */
  lemma RootAlwaysActive(pathname: string)
    requires |pathname| > 0 && pathname[0] == '/'
    ensures IsActive(pathname, "/")
  {
    assert pathname[..1] == "/";
  }

  /** The Dashboard link's condition: `isActive("/") && pathname === "/"`. */
  predicate DashboardHighlighted(pathname: string) {
    IsActive(pathname, "/") && pathname == "/"
  }

  predicate TasksHighlighted(pathname: string) {
    IsActive(pathname, "/todos")
  }

  predicate NotesHighlighted(pathname: string) {
    IsActive(pathname, "/notes")
  }

  /**
   * Dashboard is highlighted only on "/"; Tasks exactly on paths starting with
   * "/todos"; Notes exactly on paths starting with "/notes"; no path highlights
   * two links.
   */
  lemma AtMostOneLinkHighlighted(pathname: string)
    ensures DashboardHighlighted(pathname) <==> pathname == "/"
    ensures TasksHighlighted(pathname) <==> Seqs.IsPrefix("/todos", pathname)
    ensures NotesHighlighted(pathname) <==> Seqs.IsPrefix("/notes", pathname)
    ensures !(TasksHighlighted(pathname) && NotesHighlighted(pathname))
    ensures !(DashboardHighlighted(pathname) && (TasksHighlighted(pathname) || NotesHighlighted(pathname)))
  {
    ActiveIffPrefix(pathname, "/");
    ActiveIffPrefix(pathname, "/todos");
    ActiveIffPrefix(pathname, "/notes");
    if Seqs.IsPrefix("/todos", pathname) {
      assert pathname[1] == "/todos"[1] == 't';
    }
    if Seqs.IsPrefix("/notes", pathname) {
      assert pathname[1] == "/notes"[1] == 'n';
    }
    if pathname == "/" {
      assert |pathname| == 1;
    }
  }
}
