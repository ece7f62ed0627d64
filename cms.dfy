/**
 * The route handlers of the CMS (cms.rb), over an abstract document store
 * and the session of the client making the request.
 *
 * The data directory is the map `store` from file name to content; the
 * session holds the signed-in user and the flash message. The credential
 * table, bcrypt's comparison and Redcarpet's renderer are parameters of the
 * routes that use them.
 */
module Cms {
  import opened Options
  import opened Text
  import opened FileName
  import opened Http

  const MustSignIn := "You must be signed in to do that."
  const NeedsName := "Document must have a name."
  const Welcome := "Welcome!"
  const BadCredentials := "Invalid username or password."
  const SignedOut := "You have been signed out."

  function DoesNotExist(f: string): (r: string) { f + " does not exist." }
  function HasBeenUpdated(f: string): (r: string) { f + " has been updated." }
  function HasBeenDeleted(f: string): (r: string) { f + " has been deleted." }
  function HasBeenCreated(f: string): (r: string) { f + " has been created." }

  /** A name the glob "*" skips: a dot-file. */
  predicate IsDotFile(name: string) {
    |name| > 0 && name[0] == '.'
  }

  /** The names `Dir.glob(File.join(data_path, "*"))` lists for a store. */
  function Listing(store: map<string, string>): (names: set<string>) {
    set name | name in store && !IsDotFile(name)
  }

  /** Writing a document (create or save) adds its name to the index unless it is a dot-file. */
  lemma ListingAfterWrite(store: map<string, string>, name: string, txt: string)
    ensures Listing(store[name := txt]) == Listing(store) + (if IsDotFile(name) then {} else {name})
  {
  }

  /** Deleting a document removes exactly its name from the index. */
  lemma ListingAfterDelete(store: map<string, string>, name: string)
    ensures Listing(store - {name}) == Listing(store) - {name}
  {
  }

  class App {
    var store: map<string, string>
    var currentUser: Option<string>
    var message: Option<string>

    /** A client's first request against a data directory, with the session it carries. */
    constructor (docs: map<string, string>, user: Option<string>)
      ensures store == docs && currentUser == user && message == None
    {
      store := docs;
      currentUser := user;
      message := None;
    }

    /** `someone_signed_in?`: Ruby truthiness, so an empty user name counts as signed in. */
    predicate SomeoneSignedIn()
      reads this
    {
      currentUser.Some?
    }

    /** `redirect_if_not_signed_in`; `halted` means the handler stops with a redirect. */
    method RedirectIfNotSignedIn() returns (halted: bool)
      modifies this`message
      ensures halted <==> !SomeoneSignedIn()
      ensures message == if halted then Some(MustSignIn) else old(message)
    {
      halted := !SomeoneSignedIn();
      if halted {
        message := Some(MustSignIn);
      }
    }

    /** GET / */
    method Index() returns (o: Outcome)
      ensures o == Ok(Rendered(IndexView(Listing(store))), TextHtml)
    {
      o := Ok(Rendered(IndexView(Listing(store))), TextHtml);
    }

    /** GET /new */
    method NewForm() returns (o: Outcome)
      modifies this`message
      ensures !old(SomeoneSignedIn()) ==> o == Redirect("/") && message == Some(MustSignIn)
      ensures old(SomeoneSignedIn()) ==> o == Ok(Rendered(NewView), TextHtml) && message == old(message)
    {
      var halted := RedirectIfNotSignedIn();
      if halted {
        return Redirect("/");
      }
      o := Ok(Rendered(NewView), TextHtml);
    }

    /** GET /users/signin */
    method SignInForm() returns (o: Outcome)
      ensures o == Ok(Rendered(SignInView), TextHtml)
    {
      o := Ok(Rendered(SignInView), TextHtml);
    }

    /** GET /:file_name, with Redcarpet's HTML renderer as `render`. */
    method View(f: string, render: string -> string) returns (o: Outcome)
      modifies this`message
      ensures f in store && ExtName(f) == ".md" ==>
        o == Ok(Rendered(MarkdownView(render(store[f]))), TextHtml) && message == old(message)
      ensures f in store && ExtName(f) != ".md" ==>
        o == Ok(Raw(store[f]), TextPlain) && message == old(message)
      ensures f !in store ==> o == Redirect("/") && message == Some(DoesNotExist(f))
    {
      if f in store {
        var txt := store[f];
        if ExtName(f) == ".md" {
          return Ok(Rendered(MarkdownView(render(txt))), TextHtml);
        }
        o := Ok(Raw(txt), TextPlain);
      } else {
        message := Some(DoesNotExist(f));
        o := Redirect("/");
      }
    }

    /** GET /:file_name/edit */
    method Edit(f: string) returns (o: Outcome)
      modifies this`message
      ensures !old(SomeoneSignedIn()) ==> o == Redirect("/") && message == Some(MustSignIn)
      ensures old(SomeoneSignedIn()) ==> message == old(message)
      ensures old(SomeoneSignedIn()) && f in store ==> o == Ok(Rendered(EditView(f, store[f])), TextHtml)
      ensures old(SomeoneSignedIn()) && f !in store ==> o == Error
    {
      var halted := RedirectIfNotSignedIn();
      if halted {
        return Redirect("/");
      }
      if f !in store {
        return Error;
      }
      o := Ok(Rendered(EditView(f, store[f])), TextHtml);
    }

    /** POST /:file_name/save */
    method Save(f: string, newTxt: string) returns (o: Outcome)
      modifies this`store, this`message
      ensures o == Redirect("/")
      ensures !old(SomeoneSignedIn()) ==> store == old(store) && message == Some(MustSignIn)
      ensures old(SomeoneSignedIn()) ==> store == old(store)[f := newTxt] && message == Some(HasBeenUpdated(f))
    {
      var halted := RedirectIfNotSignedIn();
      if halted {
        return Redirect("/");
      }
      store := store[f := newTxt];
      message := Some(HasBeenUpdated(f));
      o := Redirect("/");
    }

    /** POST /:file_name/delete; `File.delete` raises on a missing file. */
    method Delete(f: string) returns (o: Outcome)
      modifies this`store, this`message
      ensures !old(SomeoneSignedIn()) ==> o == Redirect("/") && store == old(store) && message == Some(MustSignIn)
      ensures old(SomeoneSignedIn()) && f !in old(store) ==> o == Error && store == old(store) && message == old(message)
      ensures old(SomeoneSignedIn()) && f in old(store) ==>
        o == Redirect("/") && store == old(store) - {f} && message == Some(HasBeenDeleted(f))
    {
      var halted := RedirectIfNotSignedIn();
      if halted {
        return Redirect("/");
      }
      if f !in store {
        return Error;
      }
      store := store - {f};
      message := Some(HasBeenDeleted(f));
      o := Redirect("/");
    }

    /** POST /new; `File.new(name, "w+")` creates the document or empties it. */
    method Create(docName: string) returns (o: Outcome)
      modifies this`store, this`message
      ensures !old(SomeoneSignedIn()) ==> o == Redirect("/") && store == old(store) && message == Some(MustSignIn)
      ensures old(SomeoneSignedIn()) && AllSpace(docName) ==>
        o == Unprocessable(NewView) && store == old(store) && message == Some(NeedsName)
      ensures old(SomeoneSignedIn()) && !AllSpace(docName) ==>
        var name := WithDefaultExtension(Strip(docName));
        o == Redirect("/") && store == old(store)[name := ""] && message == Some(HasBeenCreated(name))
    {
      var halted := RedirectIfNotSignedIn();
      if halted {
        return Redirect("/");
      }
      var name := Strip(docName);
      if name == "" {
        message := Some(NeedsName);
        o := Unprocessable(NewView);
      } else {
        ghost var stripped := name;
        if ExtName(name) == "" {
          name := name + ".txt";
        }
        assert name == WithDefaultExtension(stripped);
        store := store[name := ""];
        message := Some(HasBeenCreated(name));
        o := Redirect("/");
      }
    }

    /**
     * POST /users/signin against the credential table `users` (user name to
     * bcrypt hash), with bcrypt's comparison as `verify(hash, password)`.
     */
    method SignIn(users: map<string, string>, verify: (string, string) -> bool, usr: string, pw: string)
      returns (o: Outcome)
      modifies this`currentUser, this`message
      ensures usr in users && verify(users[usr], pw) ==>
        o == Redirect("/") && currentUser == Some(usr) && message == Some(Welcome)
      ensures !(usr in users && verify(users[usr], pw)) ==>
        o == Unprocessable(SignInView) && currentUser == old(currentUser) && message == Some(BadCredentials)
    {
      if usr in users && verify(users[usr], pw) {
        message := Some(Welcome);
        currentUser := Some(usr);
        o := Redirect("/");
      } else {
        message := Some(BadCredentials);
        o := Unprocessable(SignInView);
      }
    }

    /** POST /users/signout */
    method SignOut() returns (o: Outcome)
      modifies this`currentUser, this`message
      ensures o == Redirect("/") && currentUser == None && message == Some(SignedOut)
    {
      currentUser := None;
      message := Some(SignedOut);
      o := Redirect("/");
    }
  }
}
