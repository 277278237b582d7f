/**
 * Header forwarding: the requestParameterAssignments table, the outbound
 * HttpWebRequest it configures, and the effect of forwarding every value of
 * every inbound header, one assignment at a time.
 */
module Forwarding {
  import opened Wrappers
  import opened Text
  import opened Enumerable

  /** The actions of the table: set UserAgent, set Accept, do nothing, or Headers.Add. */
  datatype Assignment = SetUserAgent | SetAccept | NoAssignment | DefaultAssignment

  /** requestParameterAssignments; its keys are already case-folded. */
  const RequestParameterAssignments: map<string, Assignment> :=
    map["user-agent" := SetUserAgent, "accept" := SetAccept, "connection" := NoAssignment, "host" := NoAssignment]

  /** TryGetValue on the OrdinalIgnoreCase dictionary, DefaultAssignment when the name is not a key. */
  function AssignmentFor(name: string): Assignment {
    var key := FoldCase(name);
    if key in RequestParameterAssignments then RequestParameterAssignments[key] else DefaultAssignment
  }

  /** The lookup matches header names ignoring case; every other name gets the generic Headers.Add. */
  lemma AssignmentForNames(name: string)
    ensures AssignmentFor(name) == SetUserAgent <==> EqualsIgnoreCase(name, "user-agent")
    ensures AssignmentFor(name) == SetAccept <==> EqualsIgnoreCase(name, "accept")
    ensures AssignmentFor(name) == NoAssignment
        <==> EqualsIgnoreCase(name, "connection") || EqualsIgnoreCase(name, "host")
  {
    EqualsFolded(name, "user-agent");
    EqualsFolded(name, "accept");
    EqualsFolded(name, "connection");
    EqualsFolded(name, "host");
  }

  /** The part of an HttpWebRequest that header forwarding and the fetch see. */
  datatype OutboundState = OutboundState(
    url: string,
    userAgent: Option<string>,
    accept: Option<string>,
    headers: seq<(string, string)>,
    allowAutoRedirect: bool)

  /** WebRequest.Create(url): no user agent, no accept, no extra headers, redirects followed. */
  function Created(url: string): OutboundState {
    OutboundState(url, None, None, [], true)
  }

  /** The effect of one table action that does not throw. */
  function Assigned(st: OutboundState, assignment: Assignment, name: string, value: string): OutboundState {
    match assignment
    case SetUserAgent => st.(userAgent := Some(value))
    case SetAccept => st.(accept := Some(value))
    case NoAssignment => st
    case DefaultAssignment => st.(headers := st.headers + [(name, value)])
  }

  /**
   * Which assignments throw, and with what message: the validation inside the
   * UserAgent and Accept setters and inside WebHeaderCollection.Add, which is
   * not part of this model.
   */
  type Thrower = (Assignment, string, string) -> Option<string>

  /** The exception message of one assignment, if it throws; NoAssignment is an empty action and never throws. */
  function Thrown(thrown: Thrower, assignment: Assignment, name: string, value: string): Option<string> {
    if assignment == NoAssignment then None else thrown(assignment, name, value)
  }

  /** The outbound request and the messages collected while forwarding. */
  datatype Forwarded = Forwarded(state: OutboundState, errors: seq<string>)

  /** One inner-loop iteration: run the action, or record its exception's message and go on. */
  function Step(f: Forwarded, pair: (string, string), thrown: Thrower): Forwarded {
    var assignment := AssignmentFor(pair.0);
    match Thrown(thrown, assignment, pair.0, pair.1)
    case Some(message) => f.(errors := f.errors + [message])
    case None => f.(state := Assigned(f.state, assignment, pair.0, pair.1))
  }

  /** Forwarding the name/value pairs in order; the URL and the redirect flag are never touched. */
  function Forward(st: OutboundState, pairs: seq<(string, string)>, thrown: Thrower): (r: Forwarded)
    ensures r.state.url == st.url && r.state.allowAutoRedirect == st.allowAutoRedirect
    ensures |r.errors| <= |pairs|
  {
    if pairs == [] then Forwarded(st, [])
    else Step(Forward(st, pairs[..|pairs| - 1], thrown), pairs[|pairs| - 1], thrown)
  }

  /** Forwarding one more pair is one more step. */
  lemma ForwardSnoc(st: OutboundState, pairs: seq<(string, string)>, pair: (string, string), thrown: Thrower)
    ensures Forward(st, pairs + [pair], thrown) == Step(Forward(st, pairs, thrown), pair, thrown)
  {
    assert (pairs + [pair])[..|pairs|] == pairs;
  }

  /** An inbound header: its name and all of its values. */
  type InboundHeader = (string, seq<string>)

  function Expand(name: string, values: seq<string>): seq<(string, string)> {
    seq(|values|, i requires 0 <= i < |values| => (name, values[i]))
  }

  /** The total number of header values. */
  function ValueCount(headers: seq<InboundHeader>): nat {
    if headers == [] then 0 else ValueCount(headers[..|headers| - 1]) + |headers[|headers| - 1].1|
  }

  /** Every value of every header, paired with the header's name, in enumeration order. */
  function Pairs(headers: seq<InboundHeader>): (pairs: seq<(string, string)>)
    ensures |pairs| == ValueCount(headers)
  {
    if headers == [] then []
    else Pairs(headers[..|headers| - 1]) + Expand(headers[|headers| - 1].0, headers[|headers| - 1].1)
  }

  lemma ExpandStep(name: string, values: seq<string>, j: nat)
    requires j < |values|
    ensures Expand(name, values[..j + 1]) == Expand(name, values[..j]) + [(name, values[j])]
  {
  }

  lemma PairsStep(headers: seq<InboundHeader>, i: nat)
    requires i < |headers|
    ensures Pairs(headers[..i + 1]) == Pairs(headers[..i]) + Expand(headers[i].0, headers[i].1)
  {
    assert headers[..i + 1][..i] == headers[..i];
  }

  /** Forwarding the next value of a header is one more step. */
  lemma ForwardValueStep(st: OutboundState, done: seq<(string, string)>, name: string, values: seq<string>,
                         j: nat, thrown: Thrower)
    requires j < |values|
    ensures Forward(st, done + Expand(name, values[..j + 1]), thrown)
         == Step(Forward(st, done + Expand(name, values[..j]), thrown), (name, values[j]), thrown)
  {
    ExpandStep(name, values, j);
    assert done + Expand(name, values[..j + 1]) == (done + Expand(name, values[..j])) + [(name, values[j])];
    ForwardSnoc(st, done + Expand(name, values[..j]), (name, values[j]), thrown);
  }

  // ---------------------------------------------------------------------------
  // Reference definitions, one pair at a time from the front

  predicate Fails(pair: (string, string), thrown: Thrower) {
    Thrown(thrown, AssignmentFor(pair.0), pair.0, pair.1).Some?
  }

  /** The messages of the assignments that throw, in order. */
  function Failures(pairs: seq<(string, string)>, thrown: Thrower): seq<string> {
    if pairs == [] then []
    else
      (if Fails(pairs[0], thrown) then [Thrown(thrown, AssignmentFor(pairs[0].0), pairs[0].0, pairs[0].1).value] else [])
      + Failures(pairs[1..], thrown)
  }

  /** The pairs that the generic Headers.Add accepts, in order. */
  function GenericHeaders(pairs: seq<(string, string)>, thrown: Thrower): seq<(string, string)> {
    if pairs == [] then []
    else
      (if AssignmentFor(pairs[0].0) == DefaultAssignment && !Fails(pairs[0], thrown) then [pairs[0]] else [])
      + GenericHeaders(pairs[1..], thrown)
  }

  /** The pair is a value for the setter that does not throw. */
  predicate Sets(pair: (string, string), setter: Assignment, thrown: Thrower) {
    AssignmentFor(pair.0) == setter && !Fails(pair, thrown)
  }

  predicate IsSetter(a: Assignment) {
    a == SetUserAgent || a == SetAccept
  }

  function Field(st: OutboundState, setter: Assignment): Option<string>
    requires IsSetter(setter)
  {
    if setter == SetUserAgent then st.userAgent else st.accept
  }

  /** The pair is not for connection or host. */
  predicate IsForwardable(pair: (string, string)) {
    AssignmentFor(pair.0) != NoAssignment
  }

  lemma {:induction false} FailuresAppend(a: seq<(string, string)>, b: seq<(string, string)>, thrown: Thrower)
    ensures Failures(a + b, thrown) == Failures(a, thrown) + Failures(b, thrown)
  {
    if a == [] {
      assert a + b == b;
    } else {
      assert (a + b)[1..] == a[1..] + b;
      FailuresAppend(a[1..], b, thrown);
    }
  }

  lemma {:induction false} GenericHeadersAppend(a: seq<(string, string)>, b: seq<(string, string)>, thrown: Thrower)
    ensures GenericHeaders(a + b, thrown) == GenericHeaders(a, thrown) + GenericHeaders(b, thrown)
  {
    if a == [] {
      assert a + b == b;
    } else {
      assert (a + b)[1..] == a[1..] + b;
      GenericHeadersAppend(a[1..], b, thrown);
    }
  }

  // ---------------------------------------------------------------------------
  // What forwarding does

  /** Each assignment that throws adds exactly its message to the errors, in order, and no other error is added. */
  lemma {:induction false} ForwardErrors(st: OutboundState, pairs: seq<(string, string)>, thrown: Thrower)
    ensures Forward(st, pairs, thrown).errors == Failures(pairs, thrown)
  {
    if pairs != [] {
      var init, last := pairs[..|pairs| - 1], pairs[|pairs| - 1];
      ForwardErrors(st, init, thrown);
      assert pairs == init + [last];
      FailuresAppend(init, [last], thrown);
    }
  }

  /** The generic headers are exactly the accepted pairs of the names outside the table, in order. */
  lemma {:induction false} ForwardHeaders(st: OutboundState, pairs: seq<(string, string)>, thrown: Thrower)
    ensures Forward(st, pairs, thrown).state.headers == st.headers + GenericHeaders(pairs, thrown)
  {
    if pairs != [] {
      var init, last := pairs[..|pairs| - 1], pairs[|pairs| - 1];
      ForwardHeaders(st, init, thrown);
      assert pairs == init + [last];
      GenericHeadersAppend(init, [last], thrown);
    }
  }

  /** Values of connection and host change nothing: forwarding without them gives the same request and errors. */
  lemma {:induction false} ForwardIgnoresNoOps(st: OutboundState, pairs: seq<(string, string)>, thrown: Thrower)
    ensures Forward(st, pairs, thrown) == Forward(st, Where(IsForwardable, pairs), thrown)
  {
    if pairs != [] {
      var init, last := pairs[..|pairs| - 1], pairs[|pairs| - 1];
      ForwardIgnoresNoOps(st, init, thrown);
      assert pairs == init + [last];
      ForwardSnoc(st, init, last, thrown);
      WhereAppend(IsForwardable, init, [last]);
      var kept := Where(IsForwardable, init);
      if IsForwardable(last) {
        assert Where(IsForwardable, pairs) == kept + [last];
        ForwardSnoc(st, kept, last, thrown);
      } else {
        assert Where(IsForwardable, pairs) == kept;
        assert Step(Forward(st, init, thrown), last, thrown) == Forward(st, init, thrown);
      }
    }
  }

  /**
   * The last value of user-agent (or accept) that does not throw is the one
   * the request ends up with.
   */
  lemma {:induction false} ForwardLastValueWins(st: OutboundState, pairs: seq<(string, string)>, thrown: Thrower,
                                                setter: Assignment, k: nat)
    requires IsSetter(setter)
    requires k < |pairs| && Sets(pairs[k], setter, thrown)
    requires forall j :: k < j < |pairs| ==> !Sets(pairs[j], setter, thrown)
    ensures Field(Forward(st, pairs, thrown).state, setter) == Some(pairs[k].1)
  {
    var init := pairs[..|pairs| - 1];
    if k < |pairs| - 1 {
      ForwardLastValueWins(st, init, thrown, setter, k);
    }
  }

  /** Without a value for user-agent (or accept) that goes through, that field keeps its value. */
  lemma {:induction false} ForwardFieldUntouched(st: OutboundState, pairs: seq<(string, string)>, thrown: Thrower,
                                                 setter: Assignment)
    requires IsSetter(setter)
    requires forall j :: 0 <= j < |pairs| ==> !Sets(pairs[j], setter, thrown)
    ensures Field(Forward(st, pairs, thrown).state, setter) == Field(st, setter)
  {
    if pairs != [] {
      ForwardFieldUntouched(st, pairs[..|pairs| - 1], thrown, setter);
    }
  }

  /** The HttpWebRequest being configured, updated in place by the table's actions. */
  class OutboundRequest {
    const url: string
    var userAgent: Option<string>
    var accept: Option<string>
    var headers: seq<(string, string)>
    var allowAutoRedirect: bool

    constructor (url: string)
      ensures State() == Created(url)
    {
      this.url := url;
      userAgent := None;
      accept := None;
      headers := [];
      allowAutoRedirect := true;
    }

    function State(): OutboundState
      reads this
    {
      OutboundState(url, userAgent, accept, headers, allowAutoRedirect)
    }

    /** Runs one action of the table on this request. */
    method Assign(assignment: Assignment, name: string, value: string)
      modifies this
      ensures State() == Assigned(old(State()), assignment, name, value)
    {
      match assignment
      case SetUserAgent => userAgent := Some(value);
      case SetAccept => accept := Some(value);
      case NoAssignment =>
      case DefaultAssignment => headers := headers + [(name, value)];
    }
  }
}
