/**
 * A submitted form as the web platform's `FormData` holds it: an ordered
 * list of (name, value) entries, where a value is a string or an uploaded file.
 */
module FormData {
  import opened Wrappers

  datatype FormValue = Text(text: string) | Upload

  datatype Entry = Entry(name: string, value: FormValue)

  /** `formData.get(name)`: the value of the first entry called `name`, or `null`. */
  function Get(form: seq<Entry>, name: string): (r: Option<FormValue>)
    ensures r.None? <==> forall i :: 0 <= i < |form| ==> form[i].name != name
    ensures r.Some? ==> exists i :: 0 <= i < |form| && form[i] == Entry(name, r.value)
                                    && forall j :: 0 <= j < i ==> form[j].name != name
  {
    if form == [] then None
    else if form[0].name == name then Some(form[0].value)
    else
      var r := Get(form[1..], name);
      assert r.Some? ==> exists i :: 0 <= i < |form[1..]| && form[1..][i] == Entry(name, r.value)
                                    && forall j :: 0 <= j < i ==> form[1..][j].name != name;
      assert r.Some? ==> exists i :: 0 <= i < |form| && form[i] == Entry(name, r.value)
                                    && forall j :: 0 <= j < i ==> form[j].name != name by {
        if r.Some? {
          var i :| 0 <= i < |form[1..]| && form[1..][i] == Entry(name, r.value)
                   && forall j :: 0 <= j < i ==> form[1..][j].name != name;
          assert form[i + 1] == Entry(name, r.value);
          assert forall j :: 0 <= j < i + 1 ==> form[j].name != name by {
            forall j | 0 <= j < i + 1 ensures form[j].name != name {
              if j > 0 { assert form[j] == form[1..][j - 1]; }
            }
          }
        }
      }
      r
  }

  /** `formData.getAll(name)`: the values of all entries called `name`, in form order. */
  function GetAll(form: seq<Entry>, name: string): (r: seq<FormValue>)
    ensures |r| <= |form|
    ensures forall v :: v in r <==> Entry(name, v) in form
  {
    if form == [] then []
    else if form[0].name == name then [form[0].value] + GetAll(form[1..], name)
    else GetAll(form[1..], name)
  }

  /** The entries of two parts of a form come back part by part. */
  lemma {:induction false} GetAllConcat(a: seq<Entry>, b: seq<Entry>, name: string)
    ensures GetAll(a + b, name) == GetAll(a, name) + GetAll(b, name)
  {
    if a != [] {
      assert (a + b)[1..] == a[1..] + b;
      GetAllConcat(a[1..], b, name);
    } else {
      assert a + b == b;
    }
  }

  /** What `String(value)` gives for an uploaded file. */
  const FileText := "[object File]"

  /** `String(value)`: text converts to itself, a file to "[object File]". */
  function Stringify(v: FormValue): (s: string)
    ensures v.Text? ==> s == v.text
    ensures v.Upload? ==> s == FileText
  {
    match v
    case Text(t) => t
    case Upload => FileText
  }
}
