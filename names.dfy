/** Facts about the fixed strings the commands use: the parameter names
    they write into query strings hold no '=' or '&', so each reads back as
    written, and the whitelisted values hold no capital letter. */
module QueryNames {

  import opened GoStrings

  /** A name that can stand before '=' in a query. */
  predicate PlainName(n: string)
  {
    '=' !in n && '&' !in n
  }

  lemma PagingNamesPlain()
    ensures PlainName("page") && PlainName("page_size")
  {
  }

  lemma JobFilterNamesPlain()
    ensures PlainName("policy_id") && PlainName("status") && PlainName("num")
  {
  }

  lemma JobTimeNamesPlain()
    ensures PlainName("start_time") && PlainName("end_time")
  {
  }

  lemma ArtifactNamesPlain()
    ensures PlainName("repository") && PlainName("tag")
  {
  }

  lemma LogNamesPlain()
    ensures PlainName("username") && PlainName("operation")
  {
  }

  lemma LogTimeNamesPlain()
    ensures PlainName("begin_timestamp") && PlainName("end_timestamp")
  {
  }

  /** The whitelisted job statuses hold no capital letter. */
  lemma StatusesLower()
    ensures !HasUpper("") && !HasUpper("running") && !HasUpper("error") && !HasUpper("pending")
  {
  }

  lemma MoreStatusesLower()
    ensures !HasUpper("retrying") && !HasUpper("stopped") && !HasUpper("finished") && !HasUpper("canceled")
  {
  }

  /** The whitelisted log operations hold no capital letter. */
  lemma OperationsLower()
    ensures !HasUpper("") && !HasUpper("create") && !HasUpper("delete") && !HasUpper("push") && !HasUpper("pull")
  {
  }
}
