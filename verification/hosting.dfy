/** What the host that invokes a handler or function observes. */
module Hosting {

  /** How an invocation ends: it returns normally, or an exception escapes
      to the host. */
  datatype Completion = Completed | Raised
}
