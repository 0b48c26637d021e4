/** Lookup in a parsed multipart form, as the standard `FormData.get` does it. */
module FormData {
  import opened Wrappers
  import opened Http

  /** The part of the FIRST entry named `name`, or `None` (JavaScript `null`)
      when no entry has that name. Later entries with the same name are
      ignored. */
  function Get(form: seq<FormField>, name: string): (r: Option<Part>)
    ensures r.None? <==> forall i :: 0 <= i < |form| ==> form[i].name != name
    ensures r.Some? ==>
      exists i :: 0 <= i < |form| && form[i].name == name && form[i].part == r.value
        && forall j :: 0 <= j < i ==> form[j].name != name
  {
    if |form| == 0 then None
    else if form[0].name == name then Some(form[0].part)
    else Get(form[1..], name)
  }
}
