/**
 The JSON codec of the three-state boolean wrapper: null and unknown both
 encode as `null`, a known value as `true` or `false`; decoding maps `null`
 back to null and `true`/`false` to a known value, and on any other input
 reports an error and leaves the receiver as it was.
 */
module BoolJson {
  import opened Framework

  /** The whitespace JSON allows around a value. */
  predicate IsJsonSpace(c: char)
  {
    c == ' ' || c == '\t' || c == '\n' || c == '\r'
  }

  /** `s` without leading JSON whitespace. */
  function TrimStart(s: string): (t: string)
    ensures |t| <= |s| && t == s[|s| - |t|..]
    ensures |t| > 0 ==> !IsJsonSpace(t[0])
    ensures forall k | 0 <= k < |s| - |t| :: IsJsonSpace(s[k])
  {
    if |s| > 0 && IsJsonSpace(s[0]) then TrimStart(s[1..]) else s
  }

  /** `s` without trailing JSON whitespace. */
  function TrimEnd(s: string): (t: string)
    ensures |t| <= |s| && t == s[..|t|]
    ensures |t| > 0 ==> !IsJsonSpace(t[|t| - 1])
    ensures forall k | |t| <= k < |s| :: IsJsonSpace(s[k])
  {
    if |s| > 0 && IsJsonSpace(s[|s| - 1]) then TrimEnd(s[..|s| - 1]) else s
  }

  /** The JSON value in `data`, without the whitespace around it. */
  function JsonToken(data: string): string
  {
    TrimEnd(TrimStart(data))
  }

  /** `BoolMarshaler.MarshalJSON`: a nil `*bool` for null and unknown, else the boolean. */
  function MarshalJson(b: Value<bool>): (out: string)
    ensures out == "null" || out == "true" || out == "false"
    ensures out == "null" <==> !b.Known?
    ensures out == "true" <==> b == Known(true)
  {
    if b.Null? || b.Unknown? then "null"
    else if b.v then "true" else "false"
  }

  /** The outcome of `UnmarshalJSON`: the receiver afterwards and whether an
      error was returned. */
  datatype Unmarshalled = Unmarshalled(receiver: Value<bool>, failed: bool)

  /** `BoolMarshaler.UnmarshalJSON`: `null` gives a null value, `true` and
      `false` a known one; anything else makes the JSON decoder fail, and the
      error is returned before the receiver is assigned. */
  function UnmarshalJson(receiver: Value<bool>, data: string): (r: Unmarshalled)
    ensures JsonToken(data) == "null" ==> r == Unmarshalled(Null, false)
    ensures JsonToken(data) == "true" ==> r == Unmarshalled(Known(true), false)
    ensures JsonToken(data) == "false" ==> r == Unmarshalled(Known(false), false)
    ensures r.failed <==> JsonToken(data) !in {"null", "true", "false"}
    ensures r.failed ==> r.receiver == receiver
    ensures !r.failed ==> !r.receiver.Unknown?
  {
    var token := JsonToken(data);
    if token == "null" then Unmarshalled(Null, false)
    else if token == "true" then Unmarshalled(Known(true), false)
    else if token == "false" then Unmarshalled(Known(false), false)
    else Unmarshalled(receiver, true)
  }

  /** Null and unknown are indistinguishable once encoded. */
  lemma MarshalForgetsUnknown()
    ensures MarshalJson(Unknown) == MarshalJson(Null)
  {
  }

  /** Decoding an encoded value gives it back, except that unknown comes back
      as null; whatever the receiver held before does not matter. */
  lemma RoundTrip(b: Value<bool>, receiver: Value<bool>)
    ensures UnmarshalJson(receiver, MarshalJson(b)) == Unmarshalled(if b.Unknown? then Null else b, false)
  {
    BareWordIsToken(MarshalJson(b));
  }

  /** A word that neither starts nor ends with whitespace is its own token. */
  lemma BareWordIsToken(w: string)
    requires |w| > 0 && !IsJsonSpace(w[0]) && !IsJsonSpace(w[|w| - 1])
    ensures JsonToken(w) == w
  {
    assert TrimStart(w) == w;
    assert TrimEnd(w) == w;
  }

  /** A string made only of JSON whitespace. */
  predicate AllSpace(s: string)
  {
    forall k | 0 <= k < |s| :: IsJsonSpace(s[k])
  }

  /** Whitespace around the JSON value, of any kind and amount, does not
      change the outcome. */
  lemma SurroundingSpaceIgnored(receiver: Value<bool>, pre: string, data: string, post: string)
    requires AllSpace(pre) && AllSpace(post)
    ensures UnmarshalJson(receiver, pre + data + post) == UnmarshalJson(receiver, data)
  {
    PaddedToken(pre, data, post);
  }

  /** Leading and trailing whitespace are trimmed off the token. */
  lemma PaddedToken(pre: string, data: string, post: string)
    requires AllSpace(pre) && AllSpace(post)
    ensures JsonToken(pre + data + post) == JsonToken(data)
  {
    calc {
      JsonToken(pre + data + post);
      { assert pre + data + post == pre + (data + post); }
      TrimEnd(TrimStart(pre + (data + post)));
      { TrimStartDropsSpace(pre, data + post); }
      TrimEnd(TrimStart(data + post));
      { TrimStartKeepsEnd(data, post); }
      TrimEnd(TrimStart(data) + post);
      { TrimEndDropsSpace(TrimStart(data), post); }
      TrimEnd(TrimStart(data));
    }
  }

  /** Leading whitespace added to a string is removed by `TrimStart`. */
  lemma {:induction false} TrimStartDropsSpace(pre: string, s: string)
    requires AllSpace(pre)
    ensures TrimStart(pre + s) == TrimStart(s)
    decreases |pre|
  {
    if |pre| > 0 {
      assert (pre + s)[0] == pre[0];
      assert (pre + s)[1..] == pre[1..] + s;
      TrimStartDropsSpace(pre[1..], s);
    } else {
      assert pre + s == s;
    }
  }

  /** Appending whitespace before or after trimming the start makes no
      difference once the end is trimmed too. */
  lemma {:induction false} TrimStartKeepsEnd(s: string, tail: string)
    requires AllSpace(tail)
    ensures TrimEnd(TrimStart(s + tail)) == TrimEnd(TrimStart(s) + tail)
    decreases |s|
  {
    if |s| > 0 && IsJsonSpace(s[0]) {
      assert (s + tail)[1..] == s[1..] + tail;
      TrimStartKeepsEnd(s[1..], tail);
    } else if |s| == 0 {
      assert s + tail == tail;
    } else {
      assert (s + tail)[0] == s[0];
    }
  }

  /** Trailing whitespace added to a string is removed by `TrimEnd`. */
  lemma {:induction false} TrimEndDropsSpace(s: string, tail: string)
    requires AllSpace(tail)
    ensures TrimEnd(s + tail) == TrimEnd(s)
    decreases |tail|
  {
    if |tail| > 0 {
      var shorter := tail[..|tail| - 1];
      assert (s + tail)[..|s + tail| - 1] == s + shorter;
      TrimEndDropsSpace(s, shorter);
    } else {
      assert s + tail == s;
    }
  }
}
