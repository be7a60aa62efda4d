/**
 * The bootstrapper's guess at the client's address: the first entry, in a
 * fixed order of request headers and then left to right inside a
 * comma-separated header, that the IP validator accepts.
 *
 * The request's server variables are a map from name to value. The
 * validator (PHP `filter_var` with `FILTER_VALIDATE_IP` and the flags that
 * refuse private and reserved ranges) is the parameter `accept`.
 */
module ClientIp {
  import opened Wrappers
  import opened Strings

  /** The server variables consulted, most trusted first. */
  const HeaderPriority: seq<string> := [
    "HTTP_CLIENT_IP", "HTTP_X_FORWARDED_FOR", "HTTP_X_FORWARDED",
    "HTTP_X_CLUSTER_CLIENT_IP", "HTTP_FORWARDED_FOR", "HTTP_FORWARDED",
    "REMOTE_ADDR"
  ]

  /** The trimmed comma-separated entries of header `key`; none when the
      header is absent. */
  function Entries(server: map<string, string>, key: string): (e: seq<string>)
    ensures key in server ==> |e| == |Split(server[key], ',')|
    ensures key !in server ==> e == []
  {
    if key in server then TrimAll(Split(server[key], ',')) else []
  }

  /** PHP `array_map('trim', $pieces)`. */
  function TrimAll(pieces: seq<string>): (r: seq<string>)
    ensures |r| == |pieces|
  {
    if pieces == [] then [] else [Trim(pieces[0])] + TrimAll(pieces[1..])
  }

  lemma {:induction false} TrimAllAt(pieces: seq<string>)
    ensures forall i :: 0 <= i < |pieces| ==> TrimAll(pieces)[i] == Trim(pieces[i])
  {
    if pieces != [] {
      TrimAllAt(pieces[1..]);
      assert forall i :: 1 <= i < |pieces| ==> pieces[i] == pieces[1..][i - 1];
    }
  }

  lemma EntriesAt(server: map<string, string>, key: string)
    requires key in server
    ensures forall i :: 0 <= i < |Entries(server, key)| ==> Entries(server, key)[i] == Trim(Split(server[key], ',')[i])
  {
    TrimAllAt(Split(server[key], ','));
  }

  /** The first accepted element of `c`. */
  function FirstAccepted(c: seq<string>, accept: string -> bool): Option<string> {
    if c == [] then None
    else if accept(c[0]) then Some(c[0])
    else FirstAccepted(c[1..], accept)
  }

  /** `FirstAccepted` finds an accepted element with no accepted element
      before it, and finds nothing only when no element is accepted. */
  lemma {:induction false} FirstAcceptedSpec(c: seq<string>, accept: string -> bool)
    ensures FirstAccepted(c, accept).Some? ==>
      exists i :: 0 <= i < |c| && c[i] == FirstAccepted(c, accept).value && accept(c[i]) &&
                  forall j :: 0 <= j < i ==> !accept(c[j])
    ensures FirstAccepted(c, accept).None? <==> forall i :: 0 <= i < |c| ==> !accept(c[i])
  {
    if c != [] && !accept(c[0]) {
      FirstAcceptedSpec(c[1..], accept);
      assert forall i :: 1 <= i < |c| ==> c[i] == c[1..][i - 1];
      if FirstAccepted(c, accept).Some? {
        var i :| 0 <= i < |c| - 1 && c[1..][i] == FirstAccepted(c, accept).value && accept(c[1..][i]) &&
                 forall j :: 0 <= j < i ==> !accept(c[1..][j]);
        assert c[i + 1] == c[1..][i];
      }
    }
  }

  /** The first accepted entry over the headers `keys`, in order. */
  function FirstInHeaders(server: map<string, string>, keys: seq<string>, accept: string -> bool): Option<string>
  {
    if keys == [] then None
    else
      var here := FirstAccepted(Entries(server, keys[0]), accept);
      if here.Some? then here else FirstInHeaders(server, keys[1..], accept)
  }

  /** The address `guessIpAddress` returns; `None` stands for PHP's `null`. */
  function GuessIp(server: map<string, string>, accept: string -> bool): Option<string> {
    FirstInHeaders(server, HeaderPriority, accept)
  }

  /** Entry `j` of header `keys[k]` exists and is `x`. */
  predicate EntryAt(server: map<string, string>, keys: seq<string>, k: int, j: int, x: string) {
    0 <= k < |keys| && 0 <= j < |Entries(server, keys[k])| && Entries(server, keys[k])[j] == x
  }

  /** The validator accepts none of the first `j` entries of header `key`. */
  predicate RejectedUpTo(server: map<string, string>, key: string, j: int, accept: string -> bool) {
    forall j' :: 0 <= j' < j && j' < |Entries(server, key)| ==> !accept(Entries(server, key)[j'])
  }

  /** The validator accepts no entry of header `key` (true of an absent header). */
  predicate Rejected(server: map<string, string>, key: string, accept: string -> bool) {
    RejectedUpTo(server, key, |Entries(server, key)|, accept)
  }

  /** No entry of header `keys[k]` before position `j` is accepted, and
      no entry of a header before `keys[k]` is. */
  predicate NoneAcceptedBefore(server: map<string, string>, keys: seq<string>, k: int, j: int, accept: string -> bool)
    requires 0 <= k <= |keys|
  {
    (forall k' :: 0 <= k' < k ==> Rejected(server, keys[k'], accept)) &&
    (k < |keys| ==> RejectedUpTo(server, keys[k], j, accept))
  }

  /** When the first header has no accepted entry, "nothing accepted before
      position (k, j)" carries over from the other headers to all of them. */
  lemma NoneAcceptedBeforeShift(server: map<string, string>, keys: seq<string>, k: int, j: int, accept: string -> bool)
    requires keys != [] && 0 <= k <= |keys| - 1
    requires Rejected(server, keys[0], accept)
    requires NoneAcceptedBefore(server, keys[1..], k, j, accept)
    ensures NoneAcceptedBefore(server, keys, k + 1, j, accept)
  {
    var tail := keys[1..];
    assert forall k' :: 0 < k' < |keys| ==> keys[k'] == tail[k' - 1];
  }

  /** An address found in the headers `keys` is accepted, and it is the
      first accepted entry in order. */
  lemma {:induction false} FirstInHeadersFound(server: map<string, string>, keys: seq<string>, accept: string -> bool)
    requires FirstInHeaders(server, keys, accept).Some?
    ensures var x := FirstInHeaders(server, keys, accept).value;
      accept(x) && exists k, j :: EntryAt(server, keys, k, j, x) && NoneAcceptedBefore(server, keys, k, j, accept)
  {
    var e := Entries(server, keys[0]);
    var here := FirstAccepted(e, accept);
    FirstAcceptedSpec(e, accept);
    if here.Some? {
      var j :| 0 <= j < |e| && e[j] == here.value && accept(here.value)
                && forall j' :: 0 <= j' < j ==> !accept(e[j']);
      assert EntryAt(server, keys, 0, j, here.value);
      assert NoneAcceptedBefore(server, keys, 0, j, accept);
    } else {
      var tail := keys[1..];
      var x := FirstInHeaders(server, tail, accept).value;
      FirstInHeadersFound(server, tail, accept);
      var k, j :| EntryAt(server, tail, k, j, x) && NoneAcceptedBefore(server, tail, k, j, accept);
      assert keys[k + 1] == tail[k];
      assert EntryAt(server, keys, k + 1, j, x);
      NoneAcceptedBeforeShift(server, keys, k, j, accept);
    }
  }

  /** Nothing is found in the headers `keys` exactly when none of their
      entries is accepted. */
  lemma {:induction false} FirstInHeadersNone(server: map<string, string>, keys: seq<string>, accept: string -> bool)
    ensures FirstInHeaders(server, keys, accept).None? <==> NoneAcceptedBefore(server, keys, |keys|, 0, accept)
  {
    if keys != [] {
      var e := Entries(server, keys[0]);
      var tail := keys[1..];
      FirstAcceptedSpec(e, accept);
      if FirstAccepted(e, accept).Some? {
        assert !Rejected(server, keys[0], accept);
      } else {
        FirstInHeadersNone(server, tail, accept);
        if FirstInHeaders(server, tail, accept).None? {
          NoneAcceptedBeforeShift(server, keys, |tail|, 0, accept);
        } else {
          var k :| 0 <= k < |tail| && !Rejected(server, tail[k], accept);
          assert keys[k + 1] == tail[k];
        }
      }
    }
  }

  /** A guessed address is one the validator accepted, is free of surrounding
      whitespace, and is the first accepted entry in header-priority order,
      then left to right within the header. */
  lemma GuessIpFirstAccepted(server: map<string, string>, accept: string -> bool)
    ensures GuessIp(server, accept).Some? ==>
      var x := GuessIp(server, accept).value;
      accept(x) && IsTrimmed(x) &&
      exists k, j :: EntryAt(server, HeaderPriority, k, j, x) && HeaderPriority[k] in server &&
                     x == Trim(Split(server[HeaderPriority[k]], ',')[j]) &&
                     NoneAcceptedBefore(server, HeaderPriority, k, j, accept)
  {
    if GuessIp(server, accept).Some? {
      FirstInHeadersFound(server, HeaderPriority, accept);
      var x := GuessIp(server, accept).value;
      var k, j :| EntryAt(server, HeaderPriority, k, j, x) && NoneAcceptedBefore(server, HeaderPriority, k, j, accept);
      EntriesAt(server, HeaderPriority[k]);
      TrimSpec(Split(server[HeaderPriority[k]], ',')[j]);
    }
  }

  /** Header `key` is absent, or the validator accepts none of the trimmed
      pieces of its value. */
  predicate NoPieceAccepted(server: map<string, string>, key: string, accept: string -> bool) {
    key in server ==>
      forall j :: 0 <= j < |Split(server[key], ',')| ==> !accept(Trim(Split(server[key], ',')[j]))
  }

  lemma RejectedPieces(server: map<string, string>, key: string, accept: string -> bool)
    ensures Rejected(server, key, accept) <==> NoPieceAccepted(server, key, accept)
  {
    if key in server {
      EntriesAt(server, key);
      var e, pieces := Entries(server, key), Split(server[key], ',');
      if Rejected(server, key, accept) {
        forall j | 0 <= j < |pieces| ensures !accept(Trim(pieces[j])) {
          assert e[j] == Trim(pieces[j]);
        }
      } else {
        var j :| 0 <= j < |e| && accept(e[j]);
        assert 0 <= j < |pieces| && accept(Trim(pieces[j]));
      }
    }
  }

  /** Nothing is found in the headers `keys` exactly when no trimmed piece
      of a present header is accepted. */
  lemma FirstInHeadersNonePieces(server: map<string, string>, keys: seq<string>, accept: string -> bool)
    ensures FirstInHeaders(server, keys, accept).None? <==>
      forall k :: 0 <= k < |keys| ==> NoPieceAccepted(server, keys[k], accept)
  {
    FirstInHeadersNone(server, keys, accept);
    forall k | 0 <= k < |keys|
      ensures Rejected(server, keys[k], accept) <==> NoPieceAccepted(server, keys[k], accept)
    {
      RejectedPieces(server, keys[k], accept);
    }
  }

  /** The guess is `null` exactly when no entry of any listed header is
      accepted; absent headers contribute nothing. */
  lemma GuessIpNull(server: map<string, string>, accept: string -> bool)
    ensures GuessIp(server, accept).None? <==>
      forall k :: 0 <= k < |HeaderPriority| ==> NoPieceAccepted(server, HeaderPriority[k], accept)
  {
    FirstInHeadersNonePieces(server, HeaderPriority, accept);
  }

  /** With none of the listed headers present, the guess is `null`. */
  lemma GuessIpNoHeaders(server: map<string, string>, accept: string -> bool)
    requires forall k :: 0 <= k < |HeaderPriority| ==> HeaderPriority[k] !in server
    ensures GuessIp(server, accept) == None
  {
    GuessIpNull(server, accept);
  }

  /** Only the listed headers matter: two requests that agree on them get the
      same guess. */
  lemma {:induction false} GuessIpOnlyListedHeaders(s1: map<string, string>, s2: map<string, string>, accept: string -> bool)
    requires forall k :: 0 <= k < |HeaderPriority| ==>
               (HeaderPriority[k] in s1 <==> HeaderPriority[k] in s2) &&
               (HeaderPriority[k] in s1 ==> s1[HeaderPriority[k]] == s2[HeaderPriority[k]])
    ensures GuessIp(s1, accept) == GuessIp(s2, accept)
  {
    SameHeadersSameFirst(s1, s2, HeaderPriority, accept);
  }

  lemma {:induction false} SameHeadersSameFirst(s1: map<string, string>, s2: map<string, string>, keys: seq<string>, accept: string -> bool)
    requires forall k :: 0 <= k < |keys| ==>
               (keys[k] in s1 <==> keys[k] in s2) && (keys[k] in s1 ==> s1[keys[k]] == s2[keys[k]])
    ensures FirstInHeaders(s1, keys, accept) == FirstInHeaders(s2, keys, accept)
  {
    if keys != [] {
      assert Entries(s1, keys[0]) == Entries(s2, keys[0]);
      assert forall k :: 0 < k < |keys| ==> keys[k] == keys[1..][k - 1];
      SameHeadersSameFirst(s1, s2, keys[1..], accept);
    }
  }

  /** `guessIpAddress`: scan the headers in priority order; split a present
      header on commas, trim each entry, and return the first the validator
      accepts; `null` when there is none. */
  method GuessIpAddress(server: map<string, string>, accept: string -> bool) returns (ip: Option<string>)
    ensures ip == GuessIp(server, accept)
  {
    var k := 0;
    while k < |HeaderPriority|
      invariant 0 <= k <= |HeaderPriority|
      invariant GuessIp(server, accept) == FirstInHeaders(server, HeaderPriority[k..], accept)
    {
      var key := HeaderPriority[k];
      assert HeaderPriority[k..][1..] == HeaderPriority[k + 1..];
      if key in server {
        var pieces := Split(server[key], ',');
        ghost var e := Entries(server, key);
        EntriesAt(server, key);
        var j := 0;
        while j < |pieces|
          invariant 0 <= j <= |pieces|
          invariant FirstAccepted(e, accept) == FirstAccepted(e[j..], accept)
        {
          var candidate := Trim(pieces[j]);
          assert e[j..][0] == candidate && e[j..][1..] == e[j + 1..];
          if accept(candidate) {
            return Some(candidate);
          }
          j := j + 1;
        }
      }
      k := k + 1;
    }
    return None;
  }
}
