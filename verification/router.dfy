/** The first-match routing chain of HTTPfromScratch.go:84-109. */
module Router {

  /** The handler chosen for a request, with the part of the path it works
      on. */
  datatype Handler =
    | FilePost(filename: string)
    | UserAgent
    | FileGet(filename: string)
    | Echo(text: string)
    | Root
    | Unrouted

  const FilesPrefix: string := "/files/"
  const EchoPrefix: string := "/echo/"

  /** HTTPfromScratch.go:84-109: a POST under /files/ uploads, an exact
      /user-agent reflects the header, any other request under /files/
      serves a file, /echo/ echoes, an exact / is the root, and everything
      else is not found.  Each handler is chosen exactly when its own
      condition holds and no earlier one does. */
  function Route(verb: string, path: string): (r: Handler)
    ensures r.FilePost? <==> verb == "POST" && FilesPrefix <= path
    ensures r.UserAgent? <==> path == "/user-agent"
    ensures r.FileGet? <==> verb != "POST" && FilesPrefix <= path
    ensures r.Echo? <==> EchoPrefix <= path
    ensures r.Root? <==> path == "/"
    ensures r.Unrouted? <==>
      !(FilesPrefix <= path) && !(EchoPrefix <= path) && path != "/user-agent" && path != "/"
    ensures r.FilePost? || r.FileGet? ==> path == FilesPrefix + r.filename
    ensures r.Echo? ==> path == EchoPrefix + r.text
  {
    PrefixesDisjoint(path);
    if verb == "POST" && FilesPrefix <= path then FilePost(path[|FilesPrefix|..])
    else if path == "/user-agent" then UserAgent
    else if FilesPrefix <= path then FileGet(path[|FilesPrefix|..])
    else if EchoPrefix <= path then Echo(path[|EchoPrefix|..])
    else if path == "/" then Root
    else Unrouted
  }

  /** The conditions of the chain overlap only between the two /files/
      routes: the other prefixes and exact paths exclude one another. */
  lemma PrefixesDisjoint(path: string)
    ensures FilesPrefix <= path ==> !(EchoPrefix <= path) && path != "/user-agent" && path != "/"
    ensures EchoPrefix <= path ==> path != "/user-agent" && path != "/"
  {
    if FilesPrefix <= path {
      assert path[1] == 'f';
    }
    if EchoPrefix <= path {
      assert path[1] == 'e';
    }
  }

  /** Precedence matters where routes overlap: a POST under /files/ would
      also satisfy the file-serving condition, and the upload wins. */
  lemma UploadShadowsFileGet(filename: string)
    ensures Route("POST", FilesPrefix + filename) == FilePost(filename)
    ensures Route("GET", FilesPrefix + filename) == FileGet(filename)
  {
    assert FilesPrefix <= FilesPrefix + filename;
  }

  /** Any method on a path under /echo/ is echoed, with the rest of the path
      as the text. */
  lemma EchoRoute(verb: string, text: string)
    ensures Route(verb, EchoPrefix + text) == Echo(text)
  {
    assert EchoPrefix <= EchoPrefix + text;
    PrefixesDisjoint(EchoPrefix + text);
  }
}
