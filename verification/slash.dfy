/**
 * The trailing-slash remover middleware: a request whose path ends in "/"
 * (other than the root path itself) is answered with a redirect to the same
 * path without its trailing slashes, and the handler chain is aborted.
 */
module Slash {
  import opened Wrappers
  import opened Routing
  import opened Text

  const StatusMovedPermanently: int := 301
  const StatusTemporaryRedirect: int := 307

  /** A path is redirected when it is not the root and ends with a slash: it has two characters or more, the last a slash. */
  function NeedsRedirect(path: string): (r: bool)
    ensures r <==> |path| >= 2 && path[|path| - 1] == '/'
  {
    path != "/" && |path| > 0 && path[|path| - 1] == '/'
  }

  /**
   * The Location of the redirect: the path with every trailing slash cut off.
   * The path is the location followed by the slashes that were removed.
   */
  function RedirectLocation(path: string): (loc: string)
    ensures |loc| <= |path| && path == loc + path[|loc|..]
    ensures forall i :: |loc| <= i < |path| ==> path[i] == '/'
    ensures loc == [] || loc[|loc| - 1] != '/'
  {
    TrimRightChar(path, '/')
  }

  /** A path that is redirected loses at least one slash, and the redirect target needs no further redirect. */
  lemma RedirectTargetIsFinal(path: string)
    requires NeedsRedirect(path)
    ensures |RedirectLocation(path)| < |path|
    ensures !NeedsRedirect(RedirectLocation(path))
  {
  }

  /** The Location is empty exactly when the path consists of slashes only (such as "//"). */
  lemma RedirectLocationEmpty(path: string)
    ensures RedirectLocation(path) == [] <==> forall i :: 0 <= i < |path| ==> path[i] == '/'
  {
    var loc := RedirectLocation(path);
    assert loc == [] || loc[|loc| - 1] == path[|loc| - 1];
  }

  /** The documented examples: "/users/" redirects to "/users"; "/" and "/users" are not redirected. */
  lemma RedirectExamples()
    ensures NeedsRedirect("/users/") && RedirectLocation("/users/") == "/users"
    ensures !NeedsRedirect("/") && !NeedsRedirect("/users")
  {
    assert "/users/"[..6] == "/users";
  }

  /**
   * The handler Remover(status) returns. The status it redirects with is
   * held in the closure and overwritten with 307 by the first non-GET
   * request that is redirected; later GET requests see that overwritten value.
   */
  class Remover {
    var status: int

    constructor (status: int)
      ensures this.status == status
    {
      this.status := status;
    }

    method Handle(c: Context) returns (err: Option<string>)
      modifies this, c
      ensures err == None
      ensures NeedsRedirect(c.path) ==>
        status == (if c.IsGet() then old(status) else StatusTemporaryRedirect)
        && c.responseHeader == old(c.responseHeader)["Location" := RedirectLocation(c.path)]
        && c.status == status && c.aborted && c.writer == old(c.writer)
      ensures !NeedsRedirect(c.path) ==>
        status == old(status)
        && c.responseHeader == old(c.responseHeader) && c.status == old(c.status)
        && c.aborted == old(c.aborted) && c.writer == old(c.writer)
    {
      var path := c.path;
      if path != "/" && |path| > 0 && path[|path| - 1] == '/' {
        if !c.IsGet() {
          status := StatusTemporaryRedirect;
        }
        c.SetHeader("Location", TrimRightChar(path, '/'));
        c.SetStatusCode(status);
        c.Abort();
      }
      err := None;
    }
  }

  /**
   * One remover configured with 301 serves a POST and then a GET to
   * "/users/": both are answered with 307, though a GET should get 301.
   */
  method StickyRedirect() returns (postStatus: int, getStatus: int)
    ensures postStatus == StatusTemporaryRedirect
    ensures getStatus == StatusTemporaryRedirect
  {
    var remover := new Remover(StatusMovedPermanently);
    var post := new Context("POST", "/users/", map[]);
    var _ := remover.Handle(post);
    var get := new Context("GET", "/users/", map[]);
    var _ := remover.Handle(get);
    postStatus, getStatus := post.status, get.status;
  }

  /**
   * The remover as documented: GET requests are redirected with the status
   * it was configured with, all other requests with 307, whatever came before.
   */
  class FixedRemover {
    const status: int

    constructor (status: int)
      ensures this.status == status
    {
      this.status := status;
    }

    method Handle(c: Context) returns (err: Option<string>)
      modifies c
      ensures err == None
      ensures NeedsRedirect(c.path) ==>
        c.responseHeader == old(c.responseHeader)["Location" := RedirectLocation(c.path)]
        && c.status == (if c.IsGet() then status else StatusTemporaryRedirect)
        && c.aborted && c.writer == old(c.writer)
      ensures !NeedsRedirect(c.path) ==>
        c.responseHeader == old(c.responseHeader) && c.status == old(c.status)
        && c.aborted == old(c.aborted) && c.writer == old(c.writer)
    {
      var path := c.path;
      if path != "/" && |path| > 0 && path[|path| - 1] == '/' {
        var code := if c.IsGet() then status else StatusTemporaryRedirect;
        c.SetHeader("Location", TrimRightChar(path, '/'));
        c.SetStatusCode(code);
        c.Abort();
      }
      err := None;
    }
  }

  /** The same POST-then-GET sequence against the fixed remover: the GET gets 301. */
  method FixedRedirect() returns (postStatus: int, getStatus: int)
    ensures postStatus == StatusTemporaryRedirect
    ensures getStatus == StatusMovedPermanently
  {
    var remover := new FixedRemover(StatusMovedPermanently);
    var post := new Context("POST", "/users/", map[]);
    var _ := remover.Handle(post);
    var get := new Context("GET", "/users/", map[]);
    var _ := remover.Handle(get);
    postStatus, getStatus := post.status, get.status;
  }
}
