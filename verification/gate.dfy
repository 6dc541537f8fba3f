/** The shared-key check the internal endpoints start with: when
    `INTERNAL_API_KEY` is set to a non-empty value, a request passes only
    when its `x-api-key` header equals it, and is otherwise answered 401. */
module Gate {
  import opened Outcome

  /** `!NEED || (request.headers.get("x-api-key") || "") === NEED`, with
      `NEED = env.INTERNAL_API_KEY || ""` and `None` for a missing header. */
  predicate Admits(required: string, header: Option<string>) {
    required == "" || header.GetOr("") == required
  }

  /** Without a key everybody passes; with one, exactly the requests that
      carry it, so a request without the header never does. */
  lemma AdmitsFacts(required: string, header: Option<string>)
    ensures required == "" ==> Admits(required, header)
    ensures required != "" ==> (Admits(required, header) <==> header == Some(required))
  {
  }
}
