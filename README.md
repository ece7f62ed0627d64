# File-based CMS: a Dafny model of its route handlers

The application is a small Sinatra web app (`cms.rb`). Signed-in users create,
edit, save and delete text and markdown documents kept as flat files in a
data directory. Anyone may list and read them. This project models every
route handler as a Dafny method on one object `Cms.App`, which holds:

- `store`: the data directory, a map from file name to content;
- `currentUser` and `message`: the client's session, both optional.

Each method returns an `Http.Outcome`:

- a 200 page, with the template and data it renders (or the raw text);
- a redirect;
- a 422 form;
- an `Error`, standing for an uncaught exception (500).

Its `ensures` give the whole new state: the store, the signed-in user and the flash message.

Pure pieces are functions with their own lemmas:

- `Text.Strip` is Ruby's `String#strip`;
- `FileName.ExtName` is `File.extname`;
- `FileName.WithDefaultExtension` is the `.txt` default applied on create;
- `Cms.Listing` is the index's glob.

`Workflows` holds sequences of requests taken from the application's tests. It proves what a client sees across requests, using only the handlers' contracts.

Modelling decisions:

- **Signed in means `currentUser.Some?`.** `someone_signed_in?` is Ruby truthiness, so an empty user name counts as signed in.
- **The gate halts.** `redirect` ends a Sinatra handler, so a gated route returns as soon as the check fails. It does not touch the store.
- **Foreign libraries are parameters.** bcrypt's comparison is the parameter `verify(hash, password)` and Redcarpet's renderer is the parameter `render(text)`. Both are arbitrary total functions, so nothing proved depends on how they behave. The credential table is a `map` passed to `SignIn`.
- **`strip`.** Whitespace is NUL, tab, line feed, vertical tab, form feed, carriage return and space, removed at both ends.
- **`File.extname`.** Ruby 2.7 and later on POSIX: leading dots are skipped, and the extension starts at the last dot after them. So `ExtName(".md") == ""` and `ExtName("notes.") == "."`. A name made only of dots has no extension, so creating `"..."` stores `"....txt"`, which still has none.
- **In these less obvious cases the model follows the code:**
  - A failed sign-in assigns only the message (cms.rb:120-122), so `currentUser` keeps its value: a user already signed in stays signed in.
  - `someone_signed_in?` is `!!session[:current_user]` (cms.rb:26), so an empty user name counts as signed in.
  - Editing or deleting a missing document is not rescued: `File.read` (cms.rb:72) and `File.delete` (cms.rb:90) raise, and the model answers `Error`.
  - `Status()` gives 302 for every redirect, as the tests see it. Sinatra sends 303 for a redirect after a non-GET request that declares HTTP/1.1.

## Model

| member | source | states |
|---|---|---|
| `Text.StripLeading` | cms.rb:98 | the result is the longest suffix not starting with whitespace; everything dropped is whitespace |
| `Text.StripTrailing` | cms.rb:98 | the result is the longest prefix not ending with whitespace; everything dropped is whitespace |
| `Text.Strip` | cms.rb:98-99 | the result is trimmed at both ends, no longer than the input, and empty exactly when the input is all whitespace (the `empty?` test) |
| `Text.StripRemovesSurroundingSpace` | cms.rb:98 | for all-whitespace `pre`/`post` and trimmed `mid`, `Strip(pre + mid + post) == mid` (reference definition of strip) |
| `Text.StripTrimmed` | cms.rb:98 | a trimmed name is left as it is |
| `Text.StripIdempotent` | cms.rb:98 | stripping twice equals stripping once |
| `FileName.ExtName` | cms.rb:104 | empty exactly when no dot follows the leading dots; otherwise a suffix starting with its only dot, preceded by a non-dot character |
| `FileName.ExtNameFromLastDot` | cms.rb:60 | the extension is the suffix from the last dot after the leading dots |
| `FileName.WithDefaultExtension` | cms.rb:104 | the name is kept as a prefix; it is unchanged when it has an extension, otherwise `.txt` is appended |
| `FileName.DefaultExtensionApplied` | cms.rb:104 | for a name not made only of dots, the stored name's extension is `.txt` when it had none, else its own |
| `FileName.AllDotsStayWithoutExtension` | cms.rb:104 | a name made only of dots has no extension, before and after `.txt` is appended |
| `FileName.DefaultExtensionIdempotent` | cms.rb:104 | applying the default twice equals applying it once, for names not made only of dots |
| `FileNameExamples.ExtNameAtLastDot` | cms.rb:60 | `mdpage.md` has extension `.md`; `a.tar.gz` has `.gz` |
| `FileNameExamples.ExtNameOfTrailingDot` | cms.rb:104 | `notes.` has extension `.` and so gets no `.txt` |
| `FileNameExamples.ExtNameWithoutDot` | cms.rb:60 | `.md` and `no_ext` have no extension (so `/.md` is served as plain text) |
| `FileNameExamples.CreatedNameWithExtension` | test/cms_test.rb:99-106 | `new_doc.txt` is stored under that name |
| `FileNameExamples.CreatedNameWithoutExtension` | test/cms_test.rb:108-112 | `no_ext` is stored as `no_ext.txt` |
| `FileNameExamples.CreatedAllDotsName` | cms.rb:104 | `...` is stored as `....txt`, whose extension is still empty |
| `Cms.Listing` | cms.rb:37 | no contract of its own: the store's names that are not dot-files; its meaning under writes and deletes is stated by `Cms.ListingAfterWrite` and `Cms.ListingAfterDelete` |
| `Cms.ListingAfterWrite` | cms.rb:37 | after writing a name, the index lists the old names plus that name, unless it is a dot-file (the glob `*` skips those) |
| `Cms.ListingAfterDelete` | cms.rb:37 | after deleting a name, the index lists the old names minus that one |
| `Cms.App.constructor` | test/cms_test.rb:34-36 | a session starts with the given user (none, or one injected as the tests do), no message, and the given data directory |
| `Cms.App.SomeoneSignedIn` | cms.rb:25-27 | no contract of its own: Ruby truthiness, `currentUser.Some?`; its meaning for the routes is stated by `Cms.App.RedirectIfNotSignedIn` |
| `Cms.App.RedirectIfNotSignedIn` | cms.rb:25-34 | halts exactly when no user is signed in, then sets "You must be signed in to do that."; otherwise the message is untouched |
| `Cms.App.Index` | cms.rb:36-39 | GET / renders the index over the listing of the store |
| `Cms.App.NewForm` | cms.rb:41-44 | GET /new: redirect with the sign-in message when signed out, else the new-document form |
| `Cms.App.SignInForm` | cms.rb:46-48 | GET /users/signin renders the sign-in form |
| `Cms.App.View` | cms.rb:55-67 | present `.md`: rendered markdown of the content; other present names: the content exactly, as text/plain; absent: redirect and "<f> does not exist."; the store never changes |
| `Cms.App.Edit` | cms.rb:69-74 | signed out: gate redirect; signed in: the edit form with the current content, or `Error` when the file is missing |
| `Cms.App.Save` | cms.rb:77-85 | signed out: store unchanged and gate message; signed in: the store is the old store with `f` set to the new text (created if absent), message "<f> has been updated." |
| `Cms.App.Delete` | cms.rb:87-94 | signed out: gate; missing file: `Error`, nothing changes; else `f` is removed, all other entries kept, message "<f> has been deleted." |
| `Cms.App.Create` | cms.rb:96-110 | signed out: gate; name blank after strip: 422, "Document must have a name.", store unchanged; else the normalised name maps to "" (truncating any old document), message "<name> has been created." |
| `Cms.App.SignIn` | cms.rb:112-124 | the user becomes `usr` exactly when `usr` is in the table and its hash verifies the password, with "Welcome!"; otherwise 422, the same "Invalid username or password." for both cases, and the user unchanged |
| `Cms.App.SignOut` | cms.rb:126-130 | from any state, no user remains and the message is "You have been signed out." |
| `Workflows.GatedRoutesWithoutSignIn` | test/cms_test.rb:167-198 | signed out, edit, new, save, create and delete all redirect, the store ends as it began, the message is the gate message |
| `Workflows.SaveThenView` | test/cms_test.rb:79-90 | after a save, viewing the document serves the new text (rendered when `.md`) |
| `Workflows.CreateThenIndex` | test/cms_test.rb:99-112 | after a create, the index lists the normalised name (unless a dot-file) and its content is empty |
| `Workflows.DeleteThenIndex` | test/cms_test.rb:121-131 | after a delete, the index is the old listing without that name |
| `Workflows.SignOutTwice` | test/cms_test.rb:158-165 | signing out twice leaves the same session as signing out once |
| `Workflows.SessionLifecycle` | cms.rb:112-130 | a failed sign-in keeps the gate closed, a successful one opens it, signing out closes it again |

## Left out

- Sinatra routing, session cookies, the `configure` block (cms.rb:9-13), ERB templates, layouts and HTML escaping: the framework and the views. Outcomes name the template and its data, not the markup.
- The flash message being shown and cleared by the layout: the templates are not part of this model, so a message is only ever set.
- The sign-in form echoing the submitted user name: that is template behaviour.
- The rendered markdown being evaluated again as an ERB template (`erb render_markdown(...)`, cms.rb:60): the model's page body is the renderer's output as it is.
- Redcarpet (cms.rb:50-53) and bcrypt (cms.rb:115): foreign libraries, taken as the parameters `render` and `verify`. So `**bold**` becoming `<strong>bold</strong>` is not proved.
- YAML loading and the `RACK_ENV` choice of `data_path` and `user_info_path` (cms.rb:15-23): configuration and I/O. The store is a field; the credential table is a map parameter, keyed by string.
- Paths: `File.join` with user input, `/` and `..` in names, directories that `File.exist?` would accept, and `File.new` failing for a name in a missing directory. Names are opaque keys of a flat map.
- `Dir.glob` enumeration order (cms.rb:37): the listing is a set.
- Concurrent requests and last-writer-wins races between clients: the model runs one request at a time.
- Cms.App.SignIn: does not model `BCrypt::Password.new` raising `BCrypt::Errors::InvalidHash` (a 500) when a table entry is not a bcrypt hash (cms.rb:115); `verify` is a total function and every entry is taken as a valid hash.
- Cms.App.SignIn: does not model `YAML.load_file` returning something other than a hash for an empty or malformed credential file, where `key?` raises (cms.rb:113-115); the table is always a map.
- Cms.App.View, Cms.App.Edit, Cms.App.Save, Cms.App.Delete, Cms.App.Create: do not model the `ArgumentError` (a 500) that `File.exist?`, `File.read`, `File.write`, `File.delete` and `File.new` raise for a name with an interior NUL character (cms.rb:58, 72, 81, 90, 106); such a name is served or stored like any other key. (`strip` removes NULs at the ends of a created name.)
- Missing form parameters (`nil` for `doc_name`, `new_txt`, `user` or `pw`): every parameter is a string.
- Character encodings: strings are sequences of characters, not bytes.
