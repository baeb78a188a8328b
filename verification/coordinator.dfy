/** The parse-and-fallback half of `_coordinator_llm`: the raw completion is
    cut down to the span from its first '{' to its last '}', that span is
    handed to the JSON parser, and any failure yields the fixed fallback
    decision. */
module Coordinator {
  import opened Wrappers
  import opened Text
  import opened Json

  /** The decision used when the completion yields no object: no tools, with
      a reasoning entry recording the parse error and no context use. */
  const Fallback: Object :=
    [("tools", JArr([])), ("reasoning", JStr("parsing error")), ("context_aware", JStr("none"))]

  /** The span from the first '{' to just after the last '}', as a start and
      an end index, kept only when a '{' exists and comes before that end. */
  function BraceSpan(response: string): (r: Option<(int, int)>)
    ensures r.None? <==>
      forall i, j :: 0 <= i < j < |response| && response[i] == '{' ==> response[j] != '}'
    ensures r.Some? ==>
      var (lo, hi) := r.value;
      && 0 <= lo < hi <= |response|
      && response[lo] == '{' && response[hi - 1] == '}'
      && '{' !in response[..lo] && '}' !in response[hi..]
  {
    var start := Find(response, '{');
    var end := RFind(response, '}') + 1;
    if start != -1 && end > start then Some((start, end))
    else
      NoBraceBefore(response, start);
      if start == -1 then None
      else
        NoCloseAfter(response, RFind(response, '}'), start);
        None
  }

  /** No '{' occurs before index `start`, the result of `Find` for '{'. */
  lemma NoBraceBefore(response: string, start: int)
    requires start == Find(response, '{')
    ensures forall i :: 0 <= i < |response| && (start == -1 || i < start) ==> response[i] != '{'
  {
    forall i | 0 <= i < |response| && (start == -1 || i < start)
      ensures response[i] != '{'
    {
      if start == -1 {
        assert response[i] in response;
      } else {
        assert response[..start][i] == response[i];
      }
    }
  }

  /** No '}' occurs after index `last`, the result of `RFind` for '}'. */
  lemma NoCloseAfter(response: string, last: int, from: int)
    requires last == RFind(response, '}') && last < from
    ensures forall j :: from <= j < |response| && 0 <= j ==> response[j] != '}'
  {
    if last == -1 {
      forall j | from <= j < |response| && 0 <= j
        ensures response[j] != '}'
      {
        assert response[j] in response;
      }
    } else {
      var tail := response[last + 1..];
      assert '}' !in tail;
      forall j | from <= j < |response| && 0 <= j
        ensures response[j] != '}'
      {
        assert tail[j - last - 1] == response[j];
      }
    }
  }

  /** The decision the coordinator returns for a completion, given the JSON
      parser `parse` (`None` is a parse error): the fallback when there is no
      brace span or the parser rejects it, else the parser's object as is,
      whatever its contents. */
  function Decide(response: string, parse: string -> Option<Object>): (r: Object)
    ensures BraceSpan(response).None? ==> r == Fallback
    ensures BraceSpan(response).Some? ==>
      var (lo, hi) := BraceSpan(response).value;
      && response[lo..hi][0] == '{' && response[lo..hi][hi - lo - 1] == '}'
      && (parse(response[lo..hi]).None? ==> r == Fallback)
      && (parse(response[lo..hi]).Some? ==> r == parse(response[lo..hi]).value)
  {
    match BraceSpan(response)
    case None => Fallback
    case Some((lo, hi)) =>
      match parse(response[lo..hi])
      case None => Fallback
      case Some(obj) => obj
  }

  /** A completion without a '{', or without a '}' after its first '{',
      yields the fallback whatever the parser does. */
  lemma NoBracesFallback(response: string, parse: string -> Option<Object>)
    requires '{' !in response || '}' !in response[Find(response, '{')..]
    ensures Decide(response, parse) == Fallback
  {
    var start := Find(response, '{');
    NoBraceBefore(response, start);
    if start != -1 {
      forall j | start <= j < |response|
        ensures response[j] != '}'
      {
        assert response[start..][j - start] == response[j];
      }
    }
    forall i, j | 0 <= i < j < |response| && response[i] == '{'
      ensures response[j] != '}'
    {
      assert start != -1 && start <= i;
    }
    assert BraceSpan(response).None?;
  }
}
