/**
 * Sequences of requests against one client's session, as the application's
 * tests drive them (test/cms_test.rb). Each method starts from a data
 * directory and a session, issues the requests, and states what the client
 * observes; the proofs use only the route handlers' contracts.
 */
module Workflows {
  import opened Options
  import opened Text
  import opened FileName
  import opened Http
  import opened Cms

  /** Without a signed-in user every mutating route redirects and the store stays as it was. */
  method GatedRoutesWithoutSignIn(docs: map<string, string>, f: string, newTxt: string, docName: string)
    returns (outcomes: seq<Outcome>, after: map<string, string>, msg: Option<string>)
    ensures |outcomes| == 5 && forall i :: 0 <= i < 5 ==> outcomes[i] == Redirect("/")
    ensures after == docs
    ensures msg == Some(MustSignIn)
  {
    var app := new App(docs, None);
    var edit := app.Edit(f);
    var form := app.NewForm();
    var save := app.Save(f, newTxt);
    var create := app.Create(docName);
    var delete := app.Delete(f);
    outcomes := [edit, form, save, create, delete];
    after := app.store;
    msg := app.message;
  }

  /** A saved document is served back with the new text. */
  method SaveThenView(docs: map<string, string>, user: string, f: string, newTxt: string, render: string -> string)
    returns (saved: Outcome, viewed: Outcome)
    ensures saved.Status() == 302
    ensures ExtName(f) != ".md" ==> viewed == Ok(Raw(newTxt), TextPlain)
    ensures ExtName(f) == ".md" ==> viewed == Ok(Rendered(MarkdownView(render(newTxt))), TextHtml)
  {
    var app := new App(docs, Some(user));
    saved := app.Save(f, newTxt);
    viewed := app.View(f, render);
  }

  /**
   * A created document is listed on the index under its normalised name,
   * unless that name is a dot-file, which the glob skips; it is empty.
   */
  method CreateThenIndex(docs: map<string, string>, user: string, docName: string)
    returns (created: Outcome, files: set<string>, content: string)
    requires !AllSpace(docName)
    ensures created.Status() == 302
    ensures var name := WithDefaultExtension(Strip(docName));
      files == Listing(docs) + (if IsDotFile(name) then {} else {name})
    ensures content == ""
  {
    var app := new App(docs, Some(user));
    created := app.Create(docName);
    var name := WithDefaultExtension(Strip(docName));
    assert app.store == docs[name := ""];
    ListingAfterWrite(docs, name, "");
    var index := app.Index();
    files := index.body.view.files;
    content := app.store[name];
  }

  /** A deleted document is no longer listed; every other one still is. */
  method DeleteThenIndex(docs: map<string, string>, user: string, f: string)
    returns (deleted: Outcome, files: set<string>)
    requires f in docs
    ensures deleted.Status() == 302
    ensures files == Listing(docs) - {f}
  {
    var app := new App(docs, Some(user));
    deleted := app.Delete(f);
    ListingAfterDelete(docs, f);
    var index := app.Index();
    files := index.body.view.files;
  }

  /** Signing out twice leaves the session as signing out once does. */
  method SignOutTwice(docs: map<string, string>, user: Option<string>)
    returns (once: (Option<string>, Option<string>), twice: (Option<string>, Option<string>))
    ensures once == twice == (None, Some(SignedOut))
  {
    var app := new App(docs, user);
    var _ := app.SignOut();
    once := (app.currentUser, app.message);
    var _ := app.SignOut();
    twice := (app.currentUser, app.message);
  }

  /**
   * The session identity state machine: a failed sign-in keeps the gate
   * closed, a successful one opens it, and signing out closes it again.
   */
  method SessionLifecycle(docs: map<string, string>, users: map<string, string>, verify: (string, string) -> bool,
                          usr: string, pw: string, wrongPw: string, f: string, newTxt: string)
    returns (rejected: Outcome, afterRejected: map<string, string>,
             afterSignIn: map<string, string>, afterSignOut: map<string, string>)
    requires usr in users && verify(users[usr], pw) && !verify(users[usr], wrongPw)
    ensures rejected.Status() == 422
    ensures afterRejected == docs
    ensures afterSignIn == docs[f := newTxt]
    ensures afterSignOut == afterSignIn
  {
    var app := new App(docs, None);
    rejected := app.SignIn(users, verify, usr, wrongPw);
    var _ := app.Save(f, newTxt);
    afterRejected := app.store;
    var _ := app.SignIn(users, verify, usr, pw);
    var _ := app.Save(f, newTxt);
    afterSignIn := app.store;
    var _ := app.SignOut();
    var _ := app.Save(f, newTxt + "!");
    afterSignOut := app.store;
  }
}
