/** The stock optional value. */
module Wrappers {

  datatype Option<T> = None | Some(value: T)
}

/** What a command hands to the HTTP layer. The layer itself (the shared
    gorequest client, the utils.Get/Post/Put/Delete/Multipart helpers) is not
    part of this model: a request is described by the helper it goes to, the
    target URL, the Cookie header the call site sets itself, and the body. */
module Http {

  import opened Wrappers

  /** The utils helper (or direct client call) that sends the request. */
  datatype Call = Get | Post | Put | Delete | Multipart

  /** cookie is None when the call leaves the Cookie header to the helper,
      which attaches the stored session; Some(c) when the call site sets the
      header to c itself (login and logout do). */
  datatype Request<B> = Request(call: Call, url: string, cookie: Option<string>, body: Option<B>)

  /** A command either aborts before any request is built, or sends one. */
  datatype Outcome<B, E> = Abort(error: E) | Send(request: Request<B>)

  /** The callbacks' error scan: the slice holds a non-nil error. */
  predicate AnyError<E>(errs: seq<Option<E>>)
  {
    exists k :: 0 <= k < |errs| && errs[k].Some?
  }
}
