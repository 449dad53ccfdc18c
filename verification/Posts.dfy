/** Posts as sources deliver them, and statuses as clients see them. */
module Posts {
  import opened Wrappers

  /** Of the content, only its identity matters here; the author is a handle. */
  datatype Post = Post(
    providerDomain: Option<string>,
    providerId: Option<int>,
    url: string,
    uri: Option<string>,
    author: string,
    content: string
  )

  datatype Status = Status(id: string, content: string)
}
