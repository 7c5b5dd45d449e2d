/**
 * What the two managers put on the wire, abstracted from `fetch`: the HTTP
 * verb, the URL of a collection or of one member of it, and the values a
 * failed call can throw.
 */
module Http {
  import opened Wrappers
  import opened JsText

  datatype Verb = Get | Post | Put | Delete

  /** A value caught by a `catch` clause: an `Error` instance with its message, or anything else. */
  datatype Thrown = ErrorInstance(message: string) | NonError

  /** JavaScript truthiness of a numeric id: absent and `0` are both falsy. */
  function IdTruthy(id: Option<int>): (b: bool)
    ensures !b <==> id == None || id == Some(0)
  {
    id.Some? && id.value != 0
  }

  /** `${base}/${id}`: the URL of one member of the collection at `base`. */
  function MemberUrl(base: string, id: int): (url: string)
    ensures |url| > |base| + 1
    ensures url[..|base|] == base && url[|base|] == '/'
  {
    base + "/" + IntToString(id)
  }

  /** Reference reading of a URL: which member of `base` it names, if any. */
  function MemberId(base: string, url: string): Option<int>
  {
    if |url| > |base| + 1 && url[..|base| + 1] == base + "/"
    then Some(ParseInt(url[|base| + 1..]))
    else None
  }

  /** A member URL names exactly the id it was built from, and never the collection itself. */
  lemma MemberUrlRoundTrip(base: string, id: int)
    ensures MemberId(base, MemberUrl(base, id)) == Some(id)
    ensures MemberUrl(base, id) != base
  {
    var url := MemberUrl(base, id);
    assert url[..|base| + 1] == base + "/";
    assert url[|base| + 1..] == IntToString(id);
    IntToStringRoundTrip(id);
  }
}
