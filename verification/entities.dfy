/**
  Provenance entities. A vertex is its annotation map; an edge is its two
  endpoint vertices plus its own annotations. Both are compared by value,
  so sets of them behave as mathematical sets.
*/
module Entities {
  import opened Wrappers

  type Annotations = map<string, string>

  datatype Vertex = Vertex(annotations: Annotations)

  datatype Edge = Edge(source: Vertex, destination: Vertex, annotations: Annotations)

  /** The annotation key that classifies a vertex (Process, Artifact, Network, ...). */
  const TypeKey: string := "type"

  /** The type value that marks a boundary vertex referring to another host. */
  const NetworkType: string := "Network"

  /** Annotation lookup; `None` is the Java null returned for a missing key. */
  function GetAnnotation(v: Vertex, key: string): (r: Option<string>)
    ensures r.Some? <==> key in v.annotations
    ensures r.Some? ==> r.value == v.annotations[key]
  {
    if key in v.annotations then Some(v.annotations[key]) else None
  }

  predicate HasType(v: Vertex) {
    TypeKey in v.annotations
  }

  // Character case mapping as java.lang.Character applies it, restricted to
  // the ASCII letters and the KELVIN SIGN (U+212A), whose lower case is 'k'.
  // These are all the characters that can fold onto a letter of "Network".

  function ToUpper(c: char): char {
    if 'a' <= c <= 'z' then (c as int - 32) as char else c
  }

  function ToLower(c: char): char {
    if 'A' <= c <= 'Z' then (c as int + 32) as char
    else if c == '\U{212A}' then 'k'
    else c
  }

  /** One character step of String.equalsIgnoreCase (String.regionMatches). */
  predicate CharEqualsIgnoreCase(a: char, b: char) {
    a == b || ToUpper(a) == ToUpper(b) || ToLower(ToUpper(a)) == ToLower(ToUpper(b))
  }

  /** String.equalsIgnoreCase: same length and pairwise case-insensitive equal characters. */
  function EqualsIgnoreCase(s: string, t: string): (r: bool)
    ensures r ==> |s| == |t|
    ensures s == t ==> r
    ensures r <==> |t| == |s| && forall i :: 0 <= i < |t| ==> CharEqualsIgnoreCase(t[i], s[i])
  {
    |s| == |t| && forall i :: 0 <= i < |s| ==> CharEqualsIgnoreCase(s[i], t[i])
  }

  /** A boundary vertex: its "type" annotation equals "Network", ignoring case. */
  function IsNetworkVertex(v: Vertex): (r: bool)
    ensures r <==> HasType(v) && FoldsToNetwork(v.annotations[TypeKey])
  {
    if HasType(v) then
      NetworkTypeIgnoresCase(v.annotations[TypeKey]);
      EqualsIgnoreCase(v.annotations[TypeKey], NetworkType)
    else false
  }

  /** Reference definition of the classification: the type folds to "network" letter by letter. */
  predicate FoldsToNetwork(t: string) {
    |t| == |NetworkType| && forall i :: 0 <= i < |t| ==> ToLower(t[i]) == "network"[i]
  }

  /** equalsIgnoreCase against "Network" agrees with lower-casing each character. */
  lemma NetworkTypeIgnoresCase(t: string)
    ensures EqualsIgnoreCase(t, NetworkType) <==> FoldsToNetwork(t)
  {
  }

  /** Every spelling of "Network" is a boundary type; other types are not. */
  lemma NetworkExamples()
    ensures IsNetworkVertex(Vertex(map["type" := "Network"]))
    ensures IsNetworkVertex(Vertex(map["type" := "NETWORK"]))
    ensures IsNetworkVertex(Vertex(map["type" := "network"]))
    ensures IsNetworkVertex(Vertex(map["type" := "Networ\U{212A}"]))
    ensures !IsNetworkVertex(Vertex(map["type" := "Process"]))
    ensures !IsNetworkVertex(Vertex(map["type" := "Networks"]))
    ensures !IsNetworkVertex(Vertex(map["host" := "Network"]))
  {
    NetworkTypeIgnoresCase("Network");
    NetworkTypeIgnoresCase("NETWORK");
    NetworkTypeIgnoresCase("network");
    NetworkTypeIgnoresCase("Networ\U{212A}");
    assert !CharEqualsIgnoreCase("Process"[0], NetworkType[0]);
  }
}
