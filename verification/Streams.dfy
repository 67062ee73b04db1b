/**
 Parsers that are fed a stream in pieces: they return what they could parse, the bytes left over
 for next time, and their state. An incremental parser cannot tell how its input was cut.
 */
module Streams {
  import opened ByteStrings

  /** Output and left-over, or an exception, after which nothing more is parsed. */
  datatype Parsed<T, S> =
    | Parsed(output: seq<T>, rest: Bytes, state: S)
    | Failed(state: S)
  {
    function After(earlier: seq<T>): Parsed<T, S> {
      match this
      case Parsed(o, r, s) => Parsed(earlier + o, r, s)
      case Failed(s) => this
    }
  }

  type Parser<!T, !S> = (S, Bytes) -> Parsed<T, S>

  /** More input continues where the left-over stopped. */
  ghost predicate Incremental<T, S(!new)>(parse: Parser<T, S>) {
    forall s, first, more :: Continues(parse, s, first, more)
  }

  ghost predicate Continues<T, S>(parse: Parser<T, S>, s: S, first: Bytes, more: Bytes) {
    parse(s, first + more) ==
      match parse(s, first)
      case Parsed(o, r, s') => parse(s', r + more).After(o)
      case Failed(s') => Failed(s')
  }

  /** A receiver's output, buffer and state after one more piece. */
  function Feed<T, S>(parse: Parser<T, S>, received: Parsed<T, S>, piece: Bytes): Parsed<T, S> {
    match received
    case Failed(_) => received
    case Parsed(output, buffered, s) => parse(s, buffered + piece).After(output)
  }

  function FeedAll<T, S>(parse: Parser<T, S>, received: Parsed<T, S>, pieces: seq<Bytes>): Parsed<T, S>
    decreases |pieces|
  {
    if pieces == [] then received else FeedAll(parse, Feed(parse, received, pieces[0]), pieces[1..])
  }

  lemma AfterTwice<T, S>(p: Parsed<T, S>, a: seq<T>, b: seq<T>)
    ensures p.After(b).After(a) == p.After(a + b)
  {
    if p.Parsed? {
      assert a + (b + p.output) == (a + b) + p.output;
    }
  }

  lemma AfterNothing<T, S>(p: Parsed<T, S>)
    ensures p.After([]) == p
  {
    if p.Parsed? {
      assert [] + p.output == p.output;
    }
  }

  /** However the input is cut, and whatever it holds, the pieces are worth their concatenation. */
  lemma {:induction false} CutsDoNotMatter<T, S(!new)>(parse: Parser<T, S>, s: S, input: Bytes, pieces: seq<Bytes>)
    requires Incremental(parse)
    ensures FeedAll(parse, parse(s, input), pieces) == parse(s, input + Flatten(pieces))
    decreases |pieces|
  {
    if pieces == [] {
      assert input + [] == input;
    } else {
      assert Continues(parse, s, input, pieces[0]);
      CutsDoNotMatter(parse, s, input + pieces[0], pieces[1..]);
      assert (input + pieces[0]) + Flatten(pieces[1..]) == input + Flatten(pieces);
    }
  }

  /** From a receiver that starts with an empty buffer. */
  lemma FedFromStart<T, S(!new)>(parse: Parser<T, S>, s: S, pieces: seq<Bytes>)
    requires Incremental(parse)
    requires parse(s, []) == Parsed([], [], s)
    ensures FeedAll(parse, Parsed([], [], s), pieces) == parse(s, Flatten(pieces))
  {
    CutsDoNotMatter(parse, s, [], pieces);
    assert [] + Flatten(pieces) == Flatten(pieces);
  }

  /** What a prefix of the pieces yields is a prefix of what all of them yield. */
  lemma FedPrefix<T, S(!new)>(parse: Parser<T, S>, s: S, pieces: seq<Bytes>, k: nat)
    requires Incremental(parse)
    requires parse(s, []) == Parsed([], [], s)
    requires k <= |pieces| && parse(s, Flatten(pieces)).Parsed?
    ensures
      var soFar := FeedAll(parse, Parsed([], [], s), pieces[..k]);
      && soFar.Parsed? && soFar.output <= parse(s, Flatten(pieces)).output
      && parse(soFar.state, soFar.rest + Flatten(pieces[k..])).Parsed?
      && parse(s, Flatten(pieces)).state == parse(soFar.state, soFar.rest + Flatten(pieces[k..])).state
  {
    FedFromStart(parse, s, pieces[..k]);
    FlattenAppend(pieces[..k], pieces[k..]);
    assert pieces[..k] + pieces[k..] == pieces;
    assert Continues(parse, s, Flatten(pieces[..k]), Flatten(pieces[k..]));
  }
}
