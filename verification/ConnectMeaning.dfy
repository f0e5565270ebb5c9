/** What the parts of a CONNECT authority may be, without the steps of the parser: labels, addresses and ports. */
module ConnectMeaning {
  import opened Text
  import opened NoProxyMeaning
  import opened ConnectAuthority

  // ---------------------------------------------------------------- hosts

  /** Names with dots between them. */
  function Dotted(labels: seq<string>): string
    requires labels != []
  {
    if |labels| == 1 then labels[0] else labels[0] + ['.'] + Dotted(labels[1..])
  }

  predicate AllAreLabels(labels: seq<string>) {
    forall l :: l in labels ==> IsLabel(l)
  }

  lemma {:induction false} LabelsJoin(host: string)
    ensures Dotted(Labels(host)) == host
    decreases |host|
  {
    var dot := FirstIndex(host, '.');
    if dot >= 0 {
      LabelsJoin(host[dot + 1..]);
      OneMoreDotted(host[..dot], Labels(host[dot + 1..]));
      assert host == host[..dot] + ['.'] + host[dot + 1..];
    }
  }

  lemma OneMoreDotted(first: string, rest: seq<string>)
    requires rest != []
    ensures Dotted([first] + rest) == first + ['.'] + Dotted(rest)
  {
    assert ([first] + rest)[1..] == rest;
  }

  lemma LabelHasNoDot(l: string)
    requires IsLabel(l)
    ensures '.' !in l
  {
  }

  lemma {:induction false} JoinedLabels(labels: seq<string>)
    requires labels != [] && AllAreLabels(labels)
    ensures Labels(Dotted(labels)) == labels
  {
    var first := labels[0];
    assert first in labels;
    LabelHasNoDot(first);
    if |labels| == 1 {
      InByFirstIndex(first, '.');
      assert labels == [first];
    } else {
      var rest := Dotted(labels[1..]);
      forall l | l in labels[1..] ensures IsLabel(l) {
        assert l in labels;
      }
      JoinedLabels(labels[1..]);
      FirstIndexIs(first, '.', rest);
      assert Dotted(labels)[..|first|] == first && Dotted(labels)[|first| + 1..] == rest;
      assert labels == [first] + labels[1..];
    }
  }

  lemma {:induction false} InByFirstIndex(s: string, c: char)
    ensures c in s <==> FirstIndex(s, c) >= 0
  {
    if s != [] {
      InByFirstIndex(s[1..], c);
      assert s == [s[0]] + s[1..];
    }
  }

  /** Exactly the named hosts: labels with dots between them. */
  lemma LabelledIs(host: string)
    ensures AllLabels(host) <==> exists labels :: labels != [] && AllAreLabels(labels) && Dotted(labels) == host
  {
    if AllLabels(host) {
      LabelsJoin(host);
      assert AllAreLabels(Labels(host));
    }
    if labels :| labels != [] && AllAreLabels(labels) && Dotted(labels) == host {
      JoinedLabels(labels);
    }
  }

  /** What may be a label, character by character. */
  lemma LabelIs(l: string)
    ensures IsLabel(l)
       <==> && 1 <= |l| <= 63 && l[0] != '-' && l[|l| - 1] != '-'
            && forall i :: 0 <= i < |l| ==> IsAlphanumericOr(l[i], "_-")
  {
  }

  predicate IsAlphanumericOr(c: char, others: string) {
    c in others || 'a' <= LowerChar(c) <= 'z' || '0' <= c <= '9'
  }

  /** An address, or one with a scope after the first percent sign. */
  ghost predicate IsScoped(host: string, isAddress: Validity) {
    || ('%' !in host && isAddress(host))
    || exists address: string, scope: string ::
         && host == address + ['%'] + scope && '%' !in address && isAddress(address)
         && 1 <= |scope| <= 64 && forall i :: 0 <= i < |scope| ==> IsAlphanumericOr(scope[i], "_.-")
  }

  /** Exactly the bracketed hosts. */
  lemma AddressIs(host: string, isAddress: Validity)
    ensures CheckAddress(host, isAddress).Ok? <==> IsScoped(host, isAddress)
  {
    InByFirstIndex(host, '%');
    if '%' in host {
      var percent := FirstIndex(host, '%');
      NoneBeforeFirst(host, '%');
      ScopeIs(host[percent + 1..]);
      assert host == host[..percent] + ['%'] + host[percent + 1..];
      forall address: string, scope: string | host == address + ['%'] + scope && '%' !in address
        ensures address == host[..percent] && scope == host[percent + 1..]
      {
        FirstIndexIs(address, '%', scope);
      }
    } else {
      forall address: string, scope: string ensures host != address + ['%'] + scope {
        assert (address + ['%'] + scope)[|address|] == '%';
      }
    }
  }

  lemma ScopeIs(scope: string)
    ensures IsScope(scope)
       <==> 1 <= |scope| <= 64 && forall i :: 0 <= i < |scope| ==> IsAlphanumericOr(scope[i], "_.-")
  {
  }

  // ---------------------------------------------------------------- ports

  /** Exactly the texts for a port: its digits, and as many zeros in front as a number may have. */
  lemma PortTextIs(text: string, port: nat)
    ensures PortText(text, port)
       <==> 1 <= port <= 65535 && |text| <= 4300 && exists zeros :: text == Repeated('0', zeros) + Decimal(port)
  {
    if PortText(text, port) {
      var zeros := NumberSpelled(text);
    }
    if zeros :| text == Repeated('0', zeros) + Decimal(port) {
      NumberOfDecimal(port);
      NumberWithZeros(zeros, Decimal(port));
    }
  }

  /** The white space Python knows in ASCII. */
  lemma PythonSpaceIs(c: char)
    ensures IsPythonSpace(c) <==> c in " \t\n\U{B}\U{C}\r\U{1C}\U{1D}\U{1E}\U{1F}"
  {
  }
}
