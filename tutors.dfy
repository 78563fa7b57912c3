/**
 * Tutors and their configuration, as loaded from each tutor's YAML file,
 * and the lookup of a tutor by its URL path.
 */
module Tutors {

  /** A YAML value. */
  datatype Value =
    | Str(s: string)
    | Int(i: int)
    | Float(f: real)
    | Bool(b: bool)
    | Null
    | List(items: seq<Value>)
    | Dict(entries: map<string, Value>)

  datatype Tutor = Tutor(urlPath: string, config: map<string, Value>)

  /** The tutors whose URL path is `path`, in table order. */
  function Matching(tutors: seq<Tutor>, path: string): (found: seq<Tutor>)
    ensures |found| <= |tutors|
    ensures forall t :: t in found <==> t in tutors && t.urlPath == path
    ensures forall t :: multiset(found)[t] == if t.urlPath == path then multiset(tutors)[t] else 0
  {
    if |tutors| == 0 then []
    else
      var earlier := Matching(tutors[..|tutors| - 1], path);
      var last := tutors[|tutors| - 1];
      assert tutors == tutors[..|tutors| - 1] + [last];
      assert multiset(tutors) == multiset(tutors[..|tutors| - 1]) + multiset{last};
      if last.urlPath == path then earlier + [last] else earlier
  }

  /** The outcome of `Tutor.objects.get(url_path=path)`. */
  datatype Lookup =
    | NoTutor               // raises DoesNotExist
    | OneTutor(tutor: Tutor)
    | ManyTutors            // raises MultipleObjectsReturned

  function LookupTutor(tutors: seq<Tutor>, path: string): (r: Lookup)
    ensures r.NoTutor? <==> forall t :: t in tutors ==> t.urlPath != path
    ensures r.OneTutor? ==> r.tutor in tutors && r.tutor.urlPath == path
    ensures r.OneTutor? ==> forall t :: t in tutors && t.urlPath == path ==> t == r.tutor
    ensures r.OneTutor? <==> |Matching(tutors, path)| == 1
    ensures r.ManyTutors? <==> |Matching(tutors, path)| >= 2
  {
    var found := Matching(tutors, path);
    if |found| == 0 then NoTutor
    else if |found| == 1 then
      assert found[0] in found;
      OneTutor(found[0])
    else ManyTutors
  }
}
