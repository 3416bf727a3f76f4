/**
 * Optional values, used for the error a Go function returns beside its
 * result and for a parse that may fail.
 */
module Wrappers {
  datatype Option<+T> = None | Some(value: T)
}

/**
 * The greeting business logic of the service (`greeting` in main.go).
 * A name shorter than five BYTES gets an advisory reply, any other name a
 * short salutation; the function never reports an error. The context
 * argument of the Go function only carries the request logger, and logging
 * is a no-op here, so it is dropped.
 */
module Greetings {
  import opened Wrappers
  import opened Utf8

  /** Names with fewer bytes than this are "too short". */
  const MinNameLength: nat := 5

  const HelloPrefix: Bytes := Ascii("Hello ")
  const ShortSuffix: Bytes := Ascii("! Your name is to short\n")
  const HiPrefix: Bytes := Ascii("Hi ")

  /** What Go's `greeting` returns: the reply and an error, nil (None) or
      the error's message. */
  datatype Outcome = Outcome(reply: Bytes, err: Option<Bytes>)

  predicate StartsWith(s: Bytes, prefix: Bytes)
  {
    |prefix| <= |s| && s[..|prefix|] == prefix
  }

  /** The reply for `name`; the error is always nil and the reply is the
      name framed by a fixed prefix (and, for short names, a fixed suffix). */
  function Greeting(name: Bytes): (g: Outcome)
    ensures g.err == None
    ensures |g.reply| == |name| + (if |name| < MinNameLength then 30 else 3)
  {
    if |name| < MinNameLength then
      Outcome(HelloPrefix + name + ShortSuffix, None)
    else
      Outcome(HiPrefix + name, None)
  }

  /** Reads a reply back: which of the two shapes it has and the name inside
      it. A reply of neither shape, or whose name length does not fit its
      shape, is None. */
  function ParseReply(reply: Bytes): (name: Option<Bytes>)
    ensures name.Some? ==> |name.value| < |reply|
  {
    var n := |reply|;
    if StartsWith(reply, HelloPrefix) && |HelloPrefix| + |ShortSuffix| <= n
       && reply[n - |ShortSuffix|..] == ShortSuffix
       && n - |HelloPrefix| - |ShortSuffix| < MinNameLength
    then
      Some(reply[|HelloPrefix|..n - |ShortSuffix|])
    else if StartsWith(reply, HiPrefix) && n - |HiPrefix| >= MinNameLength then
      Some(reply[|HiPrefix|..])
    else
      None
  }

  /** The two prefixes differ at their second byte ('e' against 'i'), so no
      reply starts with both. */
  lemma PrefixesDisjoint(s: Bytes)
    ensures !(StartsWith(s, HelloPrefix) && StartsWith(s, HiPrefix))
  {
    if StartsWith(s, HelloPrefix) {
      assert s[1] == HelloPrefix[1] != HiPrefix[1];
    }
  }

  /** Which branch a name takes is decided by its byte length alone, and can
      be read off the reply: the "Hello " form exactly when the name has
      fewer than five bytes, the "Hi " form exactly when it has five or more. */
  lemma Branch(name: Bytes)
    ensures StartsWith(Greeting(name).reply, HelloPrefix) <==> |name| < MinNameLength
    ensures StartsWith(Greeting(name).reply, HiPrefix) <==> |name| >= MinNameLength
  {
    var r := Greeting(name).reply;
    if |name| < MinNameLength {
      assert r[..|HelloPrefix|] == HelloPrefix;
    } else {
      assert r[..|HiPrefix|] == HiPrefix;
    }
    PrefixesDisjoint(r);
  }

  /** The reply and the name determine each other: `reply` is the greeting
      for `name` exactly when parsing `reply` gives back `name`. */
  lemma ParseReplyCorrect(name: Bytes, reply: Bytes)
    ensures Greeting(name).reply == reply <==> ParseReply(reply) == Some(name)
  {
    var n := |reply|;
    if Greeting(name).reply == reply {
      PrefixesDisjoint(reply);
      if |name| < MinNameLength {
        assert reply[..|HelloPrefix|] == HelloPrefix;
        assert reply[n - |ShortSuffix|..] == ShortSuffix;
        assert reply[|HelloPrefix|..n - |ShortSuffix|] == name;
      } else {
        assert reply[..|HiPrefix|] == HiPrefix;
        assert reply[|HiPrefix|..] == name;
      }
    }
    if ParseReply(reply) == Some(name) {
      if StartsWith(reply, HelloPrefix) && |HelloPrefix| + |ShortSuffix| <= n
         && reply[n - |ShortSuffix|..] == ShortSuffix
         && n - |HelloPrefix| - |ShortSuffix| < MinNameLength
      {
        assert reply == reply[..|HelloPrefix|] + reply[|HelloPrefix|..n - |ShortSuffix|] + reply[n - |ShortSuffix|..];
      } else {
        assert reply == reply[..|HiPrefix|] + reply[|HiPrefix|..];
      }
    }
  }

  /** Round trip: the name is recovered from its greeting. */
  lemma ParseGreeting(name: Bytes)
    ensures ParseReply(Greeting(name).reply) == Some(name)
  {
    ParseReplyCorrect(name, Greeting(name).reply);
  }

  /** Distinct names get distinct replies. */
  lemma GreetingInjective(a: Bytes, b: Bytes)
    ensures Greeting(a).reply == Greeting(b).reply ==> a == b
  {
    ParseGreeting(a);
    ParseGreeting(b);
  }

  /** The boundary lies between four and five bytes: "abcd" is too short,
      "abcde" is not. */
  lemma Boundary()
    ensures Greeting(Ascii("abcd")).reply == Ascii("Hello abcd! Your name is to short\n")
    ensures Greeting(Ascii("abcde")).reply == Ascii("Hi abcde")
  {
  }

  /** An empty name (the query parameter is absent) gets the advisory. */
  lemma EmptyName()
    ensures Greeting([]).reply == Ascii("Hello ! Your name is to short\n")
  {
  }

  /** A name of five or more characters is never too short, whatever the
      characters, since each takes at least one byte. */
  lemma LongInCharacters(s: string)
    requires |s| >= MinNameLength
    ensures Greeting(Encode(s)).reply == HiPrefix + Encode(s)
  {
    EncodeLength(s);
  }

  /** For ASCII names bytes and characters coincide, so the threshold is the
      character count. */
  lemma AsciiBranch(s: string)
    requires IsAscii(s)
    ensures StartsWith(Greeting(Encode(s)).reply, HelloPrefix) <==> |s| < MinNameLength
  {
    EncodeAscii(s);
    Branch(Encode(s));
  }

  /** A name of four characters, one of them outside ASCII, is already five
      bytes long and takes the "Hi " branch: the threshold counts bytes. */
  lemma ThresholdCountsBytes()
    ensures |"José"| == 4
    ensures Greeting(Encode("José")).reply == HiPrefix + Encode("José")
  {
  }
}
