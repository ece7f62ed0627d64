/** What a route handler answers, without the rendered markup of its templates. */
module Http {

  datatype ContentType = TextHtml | TextPlain

  /** The ERB templates a handler renders, with the data it hands them. */
  datatype View =
    | IndexView(files: set<string>)
    | NewView
    | SignInView
    | EditView(fileName: string, txt: string)
    | MarkdownView(html: string)

  datatype Body = Raw(text: string) | Rendered(view: View)

  datatype Outcome =
    | Ok(body: Body, contentType: ContentType)   // 200
    | Redirect(location: string)                 // Sinatra's `redirect`, which halts the handler
    | Unprocessable(view: View)                  // 422 with a form re-displayed
    | Error                                      // an uncaught exception (Errno::ENOENT): 500
  {
    /**
     * The status code as the application's tests see it. Sinatra answers a
     * redirect with 303 instead of 302 when the request is not a GET and
     * declares HTTP/1.1; Rack::Test declares no HTTP version, so there every
     * redirect is a 302.
     */
    function Status(): (code: int) {
      match this
      case Ok(_, _) => 200
      case Redirect(_) => 302
      case Unprocessable(_) => 422
      case Error => 500
    }
  }
}
