/**
 The configuration validators: a non-empty string, a well-formed e-mail
 address, and membership in a fixed list of strings. Each one looks at one
 configured value and reports zero or one attribute error; an unknown value
 is never judged.
 */
module Validators {
  import opened Framework

  /** `notEmptyString`: an error when the configured string is "", which
      includes a null configuration (its `ValueString` is ""). */
  function NotEmptyString(path: string, config: Value<string>): (diags: seq<Diagnostic>)
    ensures |diags| <= 1
    ensures config.Unknown? ==> diags == []
    ensures !config.Unknown? ==> (|diags| == 1 <==> ValueString(config) == "")
    ensures config.Null? ==> |diags| == 1
    ensures forall d | d in diags :: d == AttributeError(path, "Empty String", "Value must not be empty.")
  {
    if config.Unknown? then []
    else if ValueString(config) == "" then [AttributeError(path, "Empty String", "Value must not be empty.")]
    else []
  }

  // ---------------------------------------------------------------------------
  // The e-mail grammar. The pattern
  //   ^[a-zA-Z0-9.!#$%&'*+/=?^_`{|}~-]+@LABEL(\.LABEL)*$
  //   LABEL = [a-zA-Z0-9](?:[a-zA-Z0-9-]{0,61}[a-zA-Z0-9])?
  // is written below as predicates, one per part of the pattern.
  // ---------------------------------------------------------------------------

  predicate IsAlnum(c: char)
  {
    'a' <= c <= 'z' || 'A' <= c <= 'Z' || '0' <= c <= '9'
  }

  /** A character the local part (before the '@') may hold. */
  predicate IsLocalChar(c: char)
  {
    IsAlnum(c) || c in ".!#$%&'*+/=?^_`{|}~-"
  }

  /** One or more local-part characters. */
  predicate IsLocalPart(s: string)
  {
    |s| >= 1 && forall k | 0 <= k < |s| :: IsLocalChar(s[k])
  }

  /** `LABEL`: 1 to 63 characters, alphanumeric at both ends, alphanumerics
      and hyphens in between. */
  predicate IsLabel(l: string)
  {
    && 1 <= |l| <= 63
    && IsAlnum(l[0])
    && IsAlnum(l[|l| - 1])
    && forall k | 0 < k < |l| - 1 :: IsAlnum(l[k]) || l[k] == '-'
  }

  /** `LABEL(\.LABEL)*`: a first label, then optionally a dot and more. */
  predicate IsDomain(d: string)
    decreases |d|
  {
    || IsLabel(d)
    || exists j | 0 < j < |d| :: d[j] == '.' && IsLabel(d[..j]) && IsDomain(d[j + 1..])
  }

  /** The whole pattern, anchored at both ends: a local part, an '@', a domain. */
  predicate EmailPattern(e: string)
  {
    exists i | 0 < i < |e| :: e[i] == '@' && IsLocalPart(e[..i]) && IsDomain(e[i + 1..])
  }

  /** `isEmailValid`: 3 to 254 bytes long and matching the pattern, which
      is to say one '@' between a valid local part and a domain of labels. */
  function IsEmailValid(e: string): (ok: bool)
    ensures |e| < 3 || |e| > 254 ==> !ok
    ensures ok <==> 3 <= |e| <= 254 && EmailPattern(e)
  {
    if |e| < 3 || |e| > 254 then false else EmailPattern(e)
  }

  /** `email`: an error when the configured string is not a valid address. */
  function Email(path: string, config: Value<string>): (diags: seq<Diagnostic>)
    ensures |diags| <= 1
    ensures config.Unknown? ==> diags == []
    ensures !config.Unknown? ==> (|diags| == 1 <==> !IsEmailValid(ValueString(config)))
    ensures config.Null? ==> |diags| == 1
  {
    if config.Unknown? then []
    else if !IsEmailValid(ValueString(config)) then
      [AttributeError(path, "Invalid email address", "Value must be a valid email address.")]
    else []
  }

  // ---------------------------------------------------------------------------
  // An independent description of the same language by splitting on the
  // separators, and the proof that both agree.
  // ---------------------------------------------------------------------------

  /** The index of the first `c` in `s`, or `|s|` when there is none. */
  function IndexOf(s: string, c: char): (j: nat)
    ensures j <= |s|
    ensures j < |s| ==> s[j] == c
    ensures forall k | 0 <= k < j :: s[k] != c
  {
    if |s| == 0 then 0
    else if s[0] == c then 0
    else 1 + IndexOf(s[1..], c)
  }

  /** `s` cut at every `sep`; the pieces hold no `sep`. */
  function Split(s: string, sep: char): (parts: seq<string>)
    ensures |parts| >= 1
    decreases |s|
  {
    var j := IndexOf(s, sep);
    if j == |s| then [s] else [s[..j]] + Split(s[j + 1..], sep)
  }

  /** The address is one local part and one domain around a single '@', and
      every dot-separated piece of the domain is a label (so none is empty). */
  predicate EmailShape(e: string)
  {
    var parts := Split(e, '@');
    && |parts| == 2
    && IsLocalPart(parts[0])
    && forall l | l in Split(parts[1], '.') :: IsLabel(l)
  }

  /** The first occurrence is where `IndexOf` stops. */
  lemma IndexOfIsFirst(s: string, c: char, j: nat)
    requires j < |s| && s[j] == c
    requires forall k | 0 <= k < j :: s[k] != c
    ensures IndexOf(s, c) == j
  {
  }

  /** A string without `sep` is its own single piece. */
  lemma SplitWithoutSep(s: string, sep: char)
    requires forall k | 0 <= k < |s| :: s[k] != sep
    ensures Split(s, sep) == [s]
  {
  }

  /** Only a string without `sep` splits into a single piece. */
  lemma SplitSingle(s: string, sep: char)
    requires |Split(s, sep)| == 1
    ensures Split(s, sep) == [s]
    ensures forall k | 0 <= k < |s| :: s[k] != sep
  {
  }

  /** A character a domain may hold: an alphanumeric, a hyphen or a dot. */
  predicate IsDomainChar(c: char)
  {
    IsAlnum(c) || c == '-' || c == '.'
  }

  /** A label is made of domain characters. */
  lemma LabelChars(l: string)
    requires IsLabel(l)
    ensures forall k | 0 <= k < |l| :: IsDomainChar(l[k])
  {
  }

  /** A domain is made of alphanumerics, hyphens and dots only. */
  lemma {:induction false} DomainChars(d: string)
    requires IsDomain(d)
    ensures forall k | 0 <= k < |d| :: IsDomainChar(d[k])
  {
    if IsLabel(d) {
      LabelChars(d);
    } else {
      var j :| 0 < j < |d| && d[j] == '.' && IsLabel(d[..j]) && IsDomain(d[j + 1..]);
      var head, tail := d[..j], d[j + 1..];
      LabelChars(head);
      DomainChars(tail);
      forall k | 0 <= k < |d|
        ensures IsDomainChar(d[k])
      {
        if k < j {
          assert d[k] == head[k];
        } else if k > j {
          assert d[k] == tail[k - j - 1];
        }
      }
    }
  }

  /** A label holds no dot. */
  lemma LabelHasNoDot(l: string)
    requires IsLabel(l)
    ensures forall k | 0 <= k < |l| :: l[k] != '.'
  {
  }

  /** Every dot-separated piece of a domain is a label. */
  lemma {:induction false} DomainToLabels(d: string)
    requires IsDomain(d)
    ensures forall l | l in Split(d, '.') :: IsLabel(l)
    decreases |d|
  {
    if IsLabel(d) {
      LabelHasNoDot(d);
      SplitWithoutSep(d, '.');
    } else {
      var j :| 0 < j < |d| && d[j] == '.' && IsLabel(d[..j]) && IsDomain(d[j + 1..]);
      LabelHasNoDot(d[..j]);
      forall k | 0 <= k < j
        ensures d[k] != '.'
      {
        assert d[k] == d[..j][k];
      }
      IndexOfIsFirst(d, '.', j);
      assert Split(d, '.') == [d[..j]] + Split(d[j + 1..], '.');
      DomainToLabels(d[j + 1..]);
    }
  }

  /** A string whose dot-separated pieces are all labels is a domain. */
  lemma {:induction false} LabelsToDomain(d: string)
    requires forall l | l in Split(d, '.') :: IsLabel(l)
    ensures IsDomain(d)
    decreases |d|
  {
    var j := IndexOf(d, '.');
    if j == |d| {
      assert Split(d, '.') == [d];
      assert d in Split(d, '.');
    } else {
      var rest := d[j + 1..];
      assert Split(d, '.') == [d[..j]] + Split(rest, '.');
      assert d[..j] in Split(d, '.');
      forall l | l in Split(rest, '.')
        ensures IsLabel(l)
      {
        assert l in Split(d, '.');
      }
      LabelsToDomain(rest);
      assert 0 < j < |d| && d[j] == '.' && IsLabel(d[..j]) && IsDomain(rest);
    }
  }

  /** The domain rule holds exactly when every dot-separated piece is a label. */
  lemma DomainIffLabels(d: string)
    ensures IsDomain(d) <==> forall l | l in Split(d, '.') :: IsLabel(l)
  {
    if IsDomain(d) {
      DomainToLabels(d);
    }
    if forall l | l in Split(d, '.') :: IsLabel(l) {
      LabelsToDomain(d);
    }
  }

  /** The pattern and the split description accept the same strings: a
      matched address holds exactly one '@', a non-empty local part of
      allowed characters before it, and only 1-63 character labels with no
      leading or trailing hyphen after it. */
  lemma EmailPatternIffShape(e: string)
    ensures EmailPattern(e) <==> EmailShape(e)
  {
    if EmailPattern(e) {
      PatternToShape(e);
    }
    if EmailShape(e) {
      ShapeToPattern(e);
    }
  }

  /** A matched address has the split shape. */
  lemma PatternToShape(e: string)
    requires EmailPattern(e)
    ensures EmailShape(e)
  {
    var i :| 0 < i < |e| && e[i] == '@' && IsLocalPart(e[..i]) && IsDomain(e[i + 1..]);
    var local, rest := e[..i], e[i + 1..];
    forall k | 0 <= k < i
      ensures e[k] != '@'
    {
      assert IsLocalChar(local[k]);
    }
    IndexOfIsFirst(e, '@', i);
    SplitAt(e, '@', i);
    DomainHasNoAt(rest);
    SplitWithoutSep(rest, '@');
    assert Split(e, '@') == [local, rest];
    DomainIffLabels(rest);
  }

  /** Cutting at the first `sep`, found at `j`. */
  lemma {:induction false} SplitAt(s: string, sep: char, j: nat)
    requires j < |s| && IndexOf(s, sep) == j
    ensures Split(s, sep) == [s[..j]] + Split(s[j + 1..], sep)
  {
  }

  /** A domain holds no '@'. */
  lemma DomainHasNoAt(d: string)
    requires IsDomain(d)
    ensures forall k | 0 <= k < |d| :: d[k] != '@'
  {
    DomainChars(d);
  }

  /** A string that splits into two or more pieces holds `sep`, and its
      first piece is what comes before the first `sep`. */
  lemma {:induction false} SplitAtFirst(s: string, sep: char)
    requires |Split(s, sep)| >= 2
    ensures IndexOf(s, sep) < |s|
    ensures Split(s, sep) == [s[..IndexOf(s, sep)]] + Split(s[IndexOf(s, sep) + 1..], sep)
  {
  }

  /** An address of the split shape is matched. */
  lemma ShapeToPattern(e: string)
    requires EmailShape(e)
    ensures EmailPattern(e)
  {
    var parts := Split(e, '@');
    SplitAtFirst(e, '@');
    var i := IndexOf(e, '@');
    var local, rest := e[..i], e[i + 1..];
    assert parts[0] == local;
    assert parts[1..] == Split(rest, '@');
    SplitSingle(rest, '@');
    assert parts[1] == rest;
    DomainIffLabels(rest);
    assert IsLocalPart(local) && IsDomain(rest);
  }

  /** `isEmailValid` accepts exactly the 3 to 254 byte strings with one '@'
      between a valid local part and a domain of labels. */
  lemma EmailValidIffShape(e: string)
    ensures IsEmailValid(e) <==> 3 <= |e| <= 254 && EmailShape(e)
  {
    EmailPatternIffShape(e);
  }

  /** The shortest address the pattern accepts. */
  lemma ShortestEmailAccepted()
    ensures IsEmailValid("a@b")
  {
    assert "a@b"[..1] == "a" && "a@b"[2..] == "b";
    assert IsLabel("b");
  }

  /** A domain starts with an alphanumeric character. */
  lemma DomainStartsAlnum(d: string)
    requires IsDomain(d)
    ensures |d| > 0 && IsAlnum(d[0])
  {
    if !IsLabel(d) {
      var j :| 0 < j < |d| && d[j] == '.' && IsLabel(d[..j]) && IsDomain(d[j + 1..]);
      assert d[0] == d[..j][0];
    }
  }

  /** Every dot of a domain sits between two alphanumerics: it ends one
      label and the next label starts right after it. */
  lemma {:induction false} DotBetweenAlnums(d: string, j: nat)
    requires IsDomain(d) && j < |d| && d[j] == '.'
    ensures 0 < j < |d| - 1 && IsAlnum(d[j - 1]) && IsAlnum(d[j + 1])
    decreases |d|
  {
    if IsLabel(d) {
      LabelHasNoDot(d);
    } else {
      var m :| 0 < m < |d| && d[m] == '.' && IsLabel(d[..m]) && IsDomain(d[m + 1..]);
      var head, tail := d[..m], d[m + 1..];
      if j < m {
        assert head[j] == d[j];
        LabelHasNoDot(head);
      } else if j == m {
        assert d[j - 1] == head[m - 1];
        DomainStartsAlnum(tail);
        assert d[j + 1] == tail[0];
      } else {
        assert tail[j - m - 1] == d[j];
        DotBetweenAlnums(tail, j - m - 1);
        assert d[j - 1] == tail[j - m - 2] && d[j + 1] == tail[j - m];
      }
    }
  }

  /** The '@' a match splits at is the only '@' of the address. */
  lemma AtIsUnique(e: string, k: nat, i: nat)
    requires 0 < k < |e| && e[k] == '@' && IsLocalPart(e[..k]) && IsDomain(e[k + 1..])
    requires i < |e| && e[i] == '@'
    ensures i == k
  {
    if i > k {
      DomainHasNoAt(e[k + 1..]);
    }
  }

  /** An address with a domain label that starts with a hyphen (right after
      the '@' or right after a dot) is rejected. */
  lemma LeadingHyphenRejected(e: string, i: nat, j: nat)
    requires i < j < |e| && e[i] == '@' && e[j] == '-'
    requires j == i + 1 || e[j - 1] == '.'
    ensures !IsEmailValid(e)
  {
    if EmailPattern(e) {
      var k :| 0 < k < |e| && e[k] == '@' && IsLocalPart(e[..k]) && IsDomain(e[k + 1..]);
      AtIsUnique(e, k, i);
      var d := e[k + 1..];
      assert d[j - k - 1] == '-';
      if j == i + 1 {
        DomainStartsAlnum(d);
      } else {
        assert d[j - k - 2] == '.';
        DotBetweenAlnums(d, j - k - 2);
      }
    }
  }

  /** An address whose domain holds two dots in a row (an empty label) is
      rejected. */
  lemma EmptyLabelRejected(e: string, i: nat, j: nat)
    requires i < j && j + 1 < |e| && e[i] == '@' && e[j] == '.' && e[j + 1] == '.'
    ensures !IsEmailValid(e)
  {
    if EmailPattern(e) {
      var k :| 0 < k < |e| && e[k] == '@' && IsLocalPart(e[..k]) && IsDomain(e[k + 1..]);
      AtIsUnique(e, k, i);
      var d := e[k + 1..];
      assert d[j - k - 1] == '.' && d[j - k] == '.';
      DotBetweenAlnums(d, j - k - 1);
    }
  }

  /** An address with two '@' is rejected. */
  lemma SecondAtRejected(e: string, i: nat, j: nat)
    requires i < j < |e| && e[i] == '@' && e[j] == '@'
    ensures !IsEmailValid(e)
  {
    if EmailPattern(e) {
      var k :| 0 < k < |e| && e[k] == '@' && IsLocalPart(e[..k]) && IsDomain(e[k + 1..]);
      AtIsUnique(e, k, i);
      AtIsUnique(e, k, j);
    }
  }

  // ---------------------------------------------------------------------------
  // Membership in a fixed list.
  // ---------------------------------------------------------------------------

  /** `stringInSlice`: the allowed strings, and whether null is accepted. */
  datatype StringInSlice = StringInSlice(slice: seq<string>, optional: bool)

  /** The summed length of `items`. */
  function TotalLength(items: seq<string>): nat
  {
    if |items| == 0 then 0 else |items[0]| + TotalLength(items[1..])
  }

  /** `strings.Join(items, sep)`: the items in order with `sep` between
      neighbours, so one separator fewer than items, starting with the first. */
  function Join(items: seq<string>, sep: string): (r: string)
    ensures |items| == 0 ==> r == ""
    ensures |items| > 0 ==> |r| == TotalLength(items) + (|items| - 1) * |sep|
    ensures |items| > 0 ==> items[0] <= r
  {
    if |items| == 0 then ""
    else if |items| == 1 then items[0]
    else items[0] + sep + Join(items[1..], sep)
  }

  /** `stringInSlice.ValidateString`: no error for an unknown value or, when
      optional, a null one; otherwise an error unless the configured string
      (null reads as "") equals an element of the list. */
  method ValidateInSlice(v: StringInSlice, path: string, config: Value<string>) returns (diags: seq<Diagnostic>)
    ensures |diags| <= 1
    ensures config.Unknown? ==> diags == []
    ensures v.optional && config.Null? ==> diags == []
    ensures !config.Unknown? && !(v.optional && config.Null?) ==>
              (diags == [] <==> ValueString(config) in v.slice)
    ensures !v.optional && config.Null? ==> (diags == [] <==> "" in v.slice)
  {
    if config.Unknown? {
      return [];
    }
    if v.optional && config.Null? {
      return [];
    }
    var i := 0;
    while i < |v.slice|
      invariant 0 <= i <= |v.slice|
      invariant forall k | 0 <= k < i :: v.slice[k] != ValueString(config)
    {
      if ValueString(config) == v.slice[i] {
        return [];
      }
      i := i + 1;
    }
    diags := [AttributeError(path, "Invalid string", "String must be one of: [" + Join(v.slice, ", ") + "]")];
  }
}
