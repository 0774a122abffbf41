/** The three translation services, the `Error:` sentinel that marks a failed
    call, and the recorded form of a call to a service. */
module Backends {
  import opened Text

  /** The services in the order they are registered (core.py:88). */
  datatype Backend = Gpt | Claude | Gemini

  const Registered: seq<Backend> := [Gpt, Claude, Gemini]

  /** Position of a service in the registration order. */
  function Rank(b: Backend): (r: nat)
    ensures r < |Registered| && Registered[r] == b
  {
    match b
    case Gpt => 0
    case Claude => 1
    case Gemini => 2
  }

  /** The key of a service in the `models` dictionary. */
  function Name(b: Backend): (r: string)
    ensures |r| > 0 && forall k :: 0 <= k < |r| ==> IsAsciiLetter(r[k])
  {
    match b
    case Gpt => "gpt"
    case Claude => "claude"
    case Gemini => "gemini"
  }

  /** `service.upper()`, used in the headings of the critique report. */
  function Label(b: Backend): string {
    match b
    case Gpt => "GPT"
    case Claude => "CLAUDE"
    case Gemini => "GEMINI"
  }

  lemma NameInjective(a: Backend, b: Backend)
    requires Name(a) == Name(b)
    ensures a == b
  {
  }

  /** A service reply is a failure exactly when it starts with `Error:`; an
      empty reply counts as a success. */
  predicate IsError(reply: string) {
    StartsWith(reply, "Error:")
  }

  /** What each service answers to one request; the network calls themselves
      lie outside the model. */
  datatype Replies = Replies(gpt: string, claude: string, gemini: string) {
    function Of(b: Backend): string {
      match b
      case Gpt => gpt
      case Claude => claude
      case Gemini => gemini
    }
  }

  /** The operation mode; `Other` stands for any setting the dispatcher does
      not recognise, for which no service is called. */
  datatype Mode = Simple | Parallel | Critique | Other

  /** One call into a service, with the arguments it was given. A language
      the title did not name is passed as Python's `None`. */
  datatype Call =
    | Translate(service: Backend, text: string, target: Option<string>, source: Option<string>)
    | Review(service: Backend, sourceText: string, draft: string, target: Option<string>, source: Option<string>)

  /** The services other than the primary one, in registration order
      (core.py:116). */
  function Reviewers(primary: Backend): (r: seq<Backend>)
    ensures |r| == 2 && primary !in r && r[0] != r[1]
  {
    match primary
    case Gpt => [Claude, Gemini]
    case Claude => [Gpt, Gemini]
    case Gemini => [Gpt, Claude]
  }

  /** The reviewers are exactly the services other than the primary, each
      once, in registration order. */
  lemma ReviewersAreNonPrimary(primary: Backend)
    ensures forall b :: b in Reviewers(primary) <==> b != primary
    ensures Rank(Reviewers(primary)[0]) < Rank(Reviewers(primary)[1])
  {
    forall b ensures b in Reviewers(primary) <==> b != primary {
      match primary
      case Gpt =>
      case Claude =>
      case Gemini =>
    }
  }

  /** `order` lists every element of `of` exactly once: the order in which
      the worker threads happened to finish. */
  predicate IsArrangementOf(order: seq<Backend>, of: seq<Backend>) {
    multiset(order) == multiset(of)
  }

  /** Number of replies in `order` that are not errors. */
  function Successes(order: seq<Backend>, replies: Replies): (n: nat)
    ensures n <= |order|
  {
    if |order| == 0 then 0
    else Successes(order[..|order| - 1], replies) + (if IsError(replies.Of(order[|order| - 1])) then 0 else 1)
  }

  /** The count of successes does not depend on the order of completion. */
  lemma {:induction false} SuccessesPermutation(a: seq<Backend>, b: seq<Backend>, replies: Replies)
    requires multiset(a) == multiset(b)
    ensures Successes(a, replies) == Successes(b, replies)
    decreases |a|
  {
    if |a| > 0 {
      var last := a[|a| - 1];
      assert a == a[..|a| - 1] + [last];
      assert last in multiset(b);
      var j :| 0 <= j < |b| && b[j] == last;
      var rest := b[..j] + b[j + 1..];
      assert b == b[..j] + [last] + b[j + 1..];
      assert multiset(b) == multiset(rest) + multiset{last};
      assert multiset(a) == multiset(a[..|a| - 1]) + multiset{last};
      assert multiset(a[..|a| - 1]) == multiset(a) - multiset{last};
      assert multiset(rest) == multiset(b) - multiset{last};
      SuccessesPermutation(a[..|a| - 1], rest, replies);
      SuccessesRemove(b, j, replies);
    }
  }

  /** Counting with one element moved to the end. */
  lemma {:induction false} SuccessesRemove(b: seq<Backend>, j: nat, replies: Replies)
    requires j < |b|
    ensures Successes(b, replies) == Successes(b[..j] + b[j + 1..], replies) + (if IsError(replies.Of(b[j])) then 0 else 1)
    decreases |b|
  {
    if j < |b| - 1 {
      var init := b[..|b| - 1];
      SuccessesRemove(init, j, replies);
      assert init[..j] + init[j + 1..] == (b[..j] + b[j + 1..])[..|b| - 2];
      assert (b[..j] + b[j + 1..])[|b| - 2] == b[|b| - 1];
    } else {
      assert b[..j] + b[j + 1..] == b[..|b| - 1];
    }
  }

  /** Counting over the registered services is counting over the three
      replies. */
  lemma SuccessesOfRegistered(replies: Replies)
    ensures Successes(Registered, replies) ==
      (if IsError(replies.gpt) then 0 else 1) + (if IsError(replies.claude) then 0 else 1) + (if IsError(replies.gemini) then 0 else 1)
  {
    var g, c := [Gpt], [Gpt, Claude];
    assert Registered[..2] == c && c[..1] == g && g[..0] == [];
    assert Successes(g, replies) == (if IsError(replies.gpt) then 0 else 1);
    assert Successes(c, replies) == Successes(g, replies) + (if IsError(replies.claude) then 0 else 1);
  }

  /** Every failed reply lowers the count: all three succeed exactly when no
      reply is an error. */
  lemma AllSucceedIffNoError(order: seq<Backend>, replies: Replies)
    requires IsArrangementOf(order, Registered)
    ensures Successes(order, replies) == 3 <==> forall b :: !IsError(replies.Of(b))
  {
    SuccessesPermutation(order, Registered, replies);
    SuccessesOfRegistered(replies);
    var allOk := !IsError(replies.gpt) && !IsError(replies.claude) && !IsError(replies.gemini);
    if allOk {
      forall b ensures !IsError(replies.Of(b)) {
        match b
        case Gpt =>
        case Claude =>
        case Gemini =>
      }
    } else {
      assert IsError(replies.Of(Gpt)) || IsError(replies.Of(Claude)) || IsError(replies.Of(Gemini));
    }
  }
}
