/** Decimal numbers, pod host names, and reading the ordinal back out of a host name. */
module Names {
  import opened Common

  /* ---- decimal numbers ---- */

  predicate IsDigit(c: char) { '0' <= c <= '9' }

  function DigitChar(d: nat): (c: char)
    requires d < 10
    ensures IsDigit(c) && DigitValue(c) == d
  {
    '0' + d as char
  }

  function DigitValue(c: char): nat
    requires IsDigit(c)
  {
    (c - '0') as nat
  }

  predicate AllDigits(s: string) { forall i :: 0 <= i < |s| ==> IsDigit(s[i]) }

  function Decimal(n: nat): (s: string)
    ensures s != "" && AllDigits(s)
  {
    if n < 10 then [DigitChar(n)] else Decimal(n / 10) + [DigitChar(n % 10)]
  }

  function DecimalValue(s: string): nat
    requires AllDigits(s)
  {
    if s == "" then 0 else 10 * DecimalValue(s[..|s| - 1]) + DigitValue(s[|s| - 1])
  }

  lemma {:induction false} DecimalRoundTrip(n: nat)
    ensures DecimalValue(Decimal(n)) == n
  {
    if n >= 10 {
      DecimalRoundTrip(n / 10);
      assert Decimal(n)[..|Decimal(n)| - 1] == Decimal(n / 10);
    } else {
      assert Decimal(n)[..0] == "";
    }
  }

  /** A 64-bit strconv.Atoi on a string of digits. */
  function Atoi(s: string): Option<int>
    requires AllDigits(s)
  {
    if s == "" || DecimalValue(s) >= 0x8000_0000_0000_0000 then None else Some(DecimalValue(s))
  }

  /** Truncation of a 64-bit integer to 32 bits. */
  function Wrap32(n: int): (r: int)
    ensures -0x8000_0000 <= r < 0x8000_0000
    ensures -0x8000_0000 <= n < 0x8000_0000 ==> r == n
  {
    (n + 0x8000_0000) % 0x1_0000_0000 - 0x8000_0000
  }

  /* ---- searching in strings ---- */

  /** The parts of `s` before and after the first `c`. */
  function CutFirst(s: string, c: char): (r: Option<(string, string)>)
    ensures r.None? <==> c !in s
    ensures r.Some? ==> s == r.value.0 + [c] + r.value.1 && c !in r.value.0
  {
    if s == "" then None
    else if s[0] == c then Some(("", s[1..]))
    else
      var r := CutFirst(s[1..], c);
      if r.None? then None else Some(([s[0]] + r.value.0, r.value.1))
  }

  /** The parts of `s` before and after the last `c`. */
  function CutLast(s: string, c: char): (r: Option<(string, string)>)
    ensures r.None? <==> c !in s
    ensures r.Some? ==> s == r.value.0 + [c] + r.value.1 && c !in r.value.1
  {
    if s == "" then None
    else
      var last := |s| - 1;
      assert s == s[..last] + [s[last]];
      if s[last] == c then Some((s[..last], ""))
      else
        var r := CutLast(s[..last], c);
        if r.None? then None else Some((r.value.0, r.value.1 + [s[last]]))
  }

  lemma CutFirstIs(s: string, c: char, before: string, after: string)
    requires s == before + [c] + after && c !in before
    ensures CutFirst(s, c) == Some((before, after))
  {
    assert s[|before|] == c;
    var r := CutFirst(s, c).value;
    assert s[|r.0|] == c;
    assert |r.0| == |before|;
    assert r.0 == s[..|before|] == before && r.1 == s[|before| + 1..] == after;
  }

  lemma CutLastIs(s: string, c: char, before: string, after: string)
    requires s == before + [c] + after && c !in after
    ensures CutLast(s, c) == Some((before, after))
  {
    assert s[|before|] == c;
    var r := CutLast(s, c).value;
    assert s[|r.0|] == c;
    assert |r.0| == |before|;
    assert r.0 == s[..|before|] == before && r.1 == s[|before| + 1..] == after;
  }

  predicate EndsWith(s: string, suffix: string) { |suffix| <= |s| && s[|s| - |suffix|..] == suffix }

  predicate PartAt(s: string, part: string, i: nat) { i + |part| <= |s| && s[i..i + |part|] == part }

  predicate Contains(s: string, part: string) { exists i: nat :: i <= |s| && PartAt(s, part, i) }

  /* ---- host names ---- */

  predicate IsWordChar(c: char) {
    IsDigit(c) || 'a' <= c <= 'z' || 'A' <= c <= 'Z' || c == '_' || c == '-'
  }

  predicate AllWord(s: string) { forall i :: 0 <= i < |s| ==> IsWordChar(s[i]) }

  const MYSQL_SUFFIX := "-mysql"

  function StatefulSetName(cluster: string): string { cluster + MYSQL_SUFFIX }

  function PodName(cluster: string, ordinal: nat): string { StatefulSetName(cluster) + ['-'] + Decimal(ordinal) }

  function JoinHost(pod: string, service: string, namespace: string): string {
    pod + ['.'] + (service + ['.'] + namespace)
  }

  function PodHostname(cluster: string, namespace: string, ordinal: nat): string {
    JoinHost(PodName(cluster, ordinal), "mysql", namespace)
  }

  /** The part of a host before its first dot. */
  function PodNameForHost(host: string): string {
    var cut := CutFirst(host, '.');
    if cut.None? then host else cut.value.0
  }

  predicate ServiceName(service: string) {
    AllWord(service) && (EndsWith(service, "mysql") || EndsWith(service, "mysql-nodes"))
  }

  /** The parts of a host name that the pattern accepts. */
  predicate HostParts(prefix: string, digits: string, service: string, namespace: string) {
    && prefix != "" && AllWord(prefix) && AllDigits(digits)
    && ServiceName(service) && namespace != "" && AllWord(namespace)
  }

  function JoinPod(prefix: string, digits: string): string { (prefix + MYSQL_SUFFIX) + ['-'] + digits }

  /** `name` has the shape of the host pattern, with `digits` in the place of the ordinal. */
  ghost predicate HostPattern(name: string, digits: string) {
    exists prefix, service, namespace ::
      HostParts(prefix, digits, service, namespace) && name == JoinHost(JoinPod(prefix, digits), service, namespace)
  }

  /** The digits after the last dash of a pod name of the right shape. */
  function PodDigits(pod: string): (r: Option<string>)
    ensures r.Some? ==> AllDigits(r.value)
  {
    var cut := CutLast(pod, '-');
    if cut.None? then None
    else
      var head, digits := cut.value.0, cut.value.1;
      if AllDigits(digits) && EndsWith(head, MYSQL_SUFFIX) && |head| > |MYSQL_SUFFIX| && AllWord(head)
      then Some(digits) else None
  }

  /** The digits that the host pattern captures in `name`. */
  function CapturedDigits(name: string): (r: Option<string>)
    ensures r.Some? ==> AllDigits(r.value)
  {
    var first := CutFirst(name, '.');
    if first.None? then None
    else
      var second := CutFirst(first.value.1, '.');
      if second.None? then None
      else
        var service, namespace := second.value.0, second.value.1;
        if ServiceName(service) && namespace != "" && AllWord(namespace) then PodDigits(first.value.0) else None
  }

  lemma PodDigitsExactly(pod: string, digits: string)
    ensures PodDigits(pod) == Some(digits) <==>
            AllDigits(digits) && exists prefix :: prefix != "" && AllWord(prefix) && pod == JoinPod(prefix, digits)
  {
    if PodDigits(pod) == Some(digits) {
      var head := CutLast(pod, '-').value.0;
      var prefix := head[..|head| - |MYSQL_SUFFIX|];
      assert head == prefix + MYSQL_SUFFIX;
      assert forall i :: 0 <= i < |prefix| ==> prefix[i] == head[i];
      assert AllWord(prefix) && pod == JoinPod(prefix, digits);
    }
    forall prefix | AllDigits(digits) && prefix != "" && AllWord(prefix) && pod == JoinPod(prefix, digits)
      ensures PodDigits(pod) == Some(digits)
    {
      CutLastIs(pod, '-', prefix + MYSQL_SUFFIX, digits);
      assert (prefix + MYSQL_SUFFIX)[|prefix|..] == MYSQL_SUFFIX;
      WordConcat(prefix, MYSQL_SUFFIX);
    }
  }

  lemma WordConcat(a: string, b: string)
    requires AllWord(a) && AllWord(b)
    ensures AllWord(a + b)
  {
  }

  lemma PodIsWord(prefix: string, digits: string)
    requires AllWord(prefix) && AllDigits(digits)
    ensures AllWord(JoinPod(prefix, digits))
  {
    WordConcat(prefix, MYSQL_SUFFIX);
    WordConcat(prefix + MYSQL_SUFFIX, ['-']);
    WordConcat((prefix + MYSQL_SUFFIX) + ['-'], digits);
  }

  /** The captured digits are the only ones that fit the pattern. */
  lemma CapturesExactly(name: string, digits: string)
    ensures CapturedDigits(name) == Some(digits) <==> HostPattern(name, digits)
  {
    if CapturedDigits(name) == Some(digits) {
      var first := CutFirst(name, '.').value;
      var second := CutFirst(first.1, '.').value;
      PodDigitsExactly(first.0, digits);
      var prefix :| prefix != "" && AllWord(prefix) && first.0 == JoinPod(prefix, digits);
      assert HostParts(prefix, digits, second.0, second.1);
      assert name == JoinHost(JoinPod(prefix, digits), second.0, second.1);
    }
    forall prefix, service, namespace
      | HostParts(prefix, digits, service, namespace) && name == JoinHost(JoinPod(prefix, digits), service, namespace)
      ensures CapturedDigits(name) == Some(digits)
    {
      PatternIsCaptured(prefix, digits, service, namespace);
    }
  }

  lemma PatternIsCaptured(prefix: string, digits: string, service: string, namespace: string)
    requires HostParts(prefix, digits, service, namespace)
    ensures CapturedDigits(JoinHost(JoinPod(prefix, digits), service, namespace)) == Some(digits)
  {
    var pod := JoinPod(prefix, digits);
    PodIsWord(prefix, digits);
    CutFirstIs(JoinHost(pod, service, namespace), '.', pod, service + ['.'] + namespace);
    CutFirstIs(service + ['.'] + namespace, '.', service, namespace);
    PodDigitsExactly(pod, digits);
  }

  /** The ordinal in a host name, or None when there is none to be read. */
  function IndexInSts(name: string): Option<int> {
    var digits := CapturedDigits(name);
    if digits.None? then None
    else
      var i := Atoi(digits.value);
      if i.None? then None else Some(Wrap32(i.value))
  }

  lemma HostnameIsCaptured(cluster: string, namespace: string, ordinal: nat)
    requires cluster != "" && AllWord(cluster) && namespace != "" && AllWord(namespace)
    ensures CapturedDigits(PodHostname(cluster, namespace, ordinal)) == Some(Decimal(ordinal))
  {
    var service := "mysql";
    assert service[0..] == service;
    PatternIsCaptured(cluster, Decimal(ordinal), service, namespace);
  }

  /** Cluster name and namespace are words that the host pattern accepts. */
  predicate PlainNames(cluster: string, namespace: string) {
    cluster != "" && AllWord(cluster) && namespace != "" && AllWord(namespace)
  }

  /** With a dot in the pod's part there are too many parts. */
  lemma DottedPodIsNotCaptured(pod: string, namespace: string)
    requires '.' in pod
    ensures CapturedDigits(JoinHost(pod, "mysql", namespace)) == None
  {
    var host := JoinHost(pod, "mysql", namespace);
    var cut := CutFirst(pod, '.').value;
    var rest := cut.1 + ['.'] + ("mysql" + ['.'] + namespace);
    assert host == cut.0 + ['.'] + rest;
    CutFirstIs(host, '.', cut.0, rest);
    var second := CutFirst(rest, '.').value;
    var dot := |cut.1| + 6;
    assert rest[|cut.1|] == '.' && rest[dot] == '.';
    assert |second.0| <= |cut.1|;
    assert second.1[dot - |second.0| - 1] == '.';
  }

  /** An ordinal is read from a pod's host name exactly when cluster name and namespace are plain words. */
  lemma CapturedNeedsPlainNames(cluster: string, namespace: string, ordinal: nat)
    requires CapturedDigits(PodHostname(cluster, namespace, ordinal)).Some?
    ensures PlainNames(cluster, namespace)
  {
    var pod := PodName(cluster, ordinal);
    if '.' in pod { DottedPodIsNotCaptured(pod, namespace); }
    CutFirstIs(PodHostname(cluster, namespace, ordinal), '.', pod, "mysql" + ['.'] + namespace);
    CutFirstIs("mysql" + ['.'] + namespace, '.', "mysql", namespace);
    CutLastIs(pod, '-', StatefulSetName(cluster), Decimal(ordinal));
    assert forall i :: 0 <= i < |cluster| ==> StatefulSetName(cluster)[i] == cluster[i];
  }

  /** The ordinal is read back from a pod's host name exactly when cluster name and namespace are plain words
      and it fits in 31 bits; otherwise, below that, none is read. */
  lemma OrdinalRoundTrip(cluster: string, namespace: string, ordinal: nat)
    ensures IndexInSts(PodHostname(cluster, namespace, ordinal)) == Some(ordinal) <==>
            PlainNames(cluster, namespace) && ordinal < 0x8000_0000
    ensures !PlainNames(cluster, namespace) ==> IndexInSts(PodHostname(cluster, namespace, ordinal)) == None
  {
    if PlainNames(cluster, namespace) {
      HostnameIsCaptured(cluster, namespace, ordinal);
      DecimalRoundTrip(ordinal);
    } else if CapturedDigits(PodHostname(cluster, namespace, ordinal)).Some? {
      CapturedNeedsPlainNames(cluster, namespace, ordinal);
    }
  }

  /** Different ordinals give different host names, whatever the names of cluster and namespace. */
  lemma HostnameInjective(cluster: string, namespace: string, i: nat, j: nat)
    requires PodHostname(cluster, namespace, i) == PodHostname(cluster, namespace, j)
    ensures i == j
  {
    var head := StatefulSetName(cluster) + ['-'];
    var tail := ['.'] + ("mysql" + ['.'] + namespace);
    var h := PodHostname(cluster, namespace, i);
    assert h == head + Decimal(i) + tail && h == head + Decimal(j) + tail;
    assert Decimal(i) == h[|head|..|h| - |tail|] == Decimal(j);
    DecimalRoundTrip(i);
    DecimalRoundTrip(j);
  }

  /** The pod name is the first label of its host name exactly when the cluster name has no dot. */
  lemma PodNameRoundTrip(cluster: string, namespace: string, ordinal: nat)
    ensures PodNameForHost(PodHostname(cluster, namespace, ordinal)) == PodName(cluster, ordinal) <==> '.' !in cluster
  {
    var pod := PodName(cluster, ordinal);
    if '.' in cluster {
      var i :| 0 <= i < |cluster| && cluster[i] == '.';
      assert pod[i] == '.';
    } else {
      assert '.' !in Decimal(ordinal) && '.' !in MYSQL_SUFFIX;
      CutFirstIs(PodHostname(cluster, namespace, ordinal), '.', pod, "mysql" + ['.'] + namespace);
    }
  }

  /* ---- the same on texts ---- */

  /** The host name of a pod. */
  lemma PodHostnameText(cluster: string, namespace: string, ordinal: nat)
    ensures PodHostname(cluster, namespace, ordinal)
            == cluster + "-mysql-" + Decimal(ordinal) + ".mysql." + namespace
  {
    assert "-mysql-" == "-mysql" + ['-'] && ".mysql." == ['.'] + "mysql" + ['.'];
  }

  /** The characters of the pattern's words: letters, digits, underscore and dash. */
  lemma WordCharsExactly(c: char)
    ensures IsWordChar(c) <==>
            || '0' <= c <= '9' || 'a' <= c <= 'z' || 'A' <= c <= 'Z' || c in "_-"
  {
  }

  /** The ordinal is also read from a pod's name under the old headless service of its cluster. */
  lemma OldHostnameIsRead(cluster: string, namespace: string, ordinal: nat)
    requires PlainNames(cluster, namespace) && ordinal < 0x8000_0000
    ensures IndexInSts(JoinHost(PodName(cluster, ordinal), cluster + "-mysql-nodes", namespace)) == Some(ordinal)
  {
    var service := cluster + "-mysql-nodes";
    assert service[|cluster| + 1..] == "mysql-nodes" by {
      assert "-mysql-nodes"[1..] == "mysql-nodes";
      assert service[|cluster| + 1..] == "-mysql-nodes"[1..];
    }
    assert AllWord(service) by { WordConcat(cluster, "-mysql-nodes"); }
    PatternIsCaptured(cluster, Decimal(ordinal), service, namespace);
    DecimalRoundTrip(ordinal);
  }
}
