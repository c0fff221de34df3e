/** The parser registry (`src/lib/banking/registry.ts`): a fixed, ordered
    list of parsers and a first-match search over it. */
module Registry {
  import opened Wrappers
  import opened BankTypes

  /** `parsers`, in priority order. The IDFC parser is not registered. */
  const Parsers: seq<Bank> := [PNB, Kotak, SBI]

  /** `detectParser`: the first parser in list order whose `canParse` accepts
      the content, or None when none does. */
  method DetectParser(x: Externals, content: Content) returns (r: Option<Bank>)
    ensures r.None? <==> forall k :: 0 <= k < |Parsers| ==> !x.canParse(Parsers[k], content)
    ensures r.Some? ==> exists k :: 0 <= k < |Parsers| && Parsers[k] == r.value && FirstAccepting(x, content, k)
  {
    var k := 0;
    while k < |Parsers|
      invariant k <= |Parsers|
      invariant forall i :: 0 <= i < k ==> !x.canParse(Parsers[i], content)
    {
      if x.canParse(Parsers[k], content) {
        assert FirstAccepting(x, content, k);
        return Some(Parsers[k]);
      }
      k := k + 1;
    }
    return None;
  }

  /** Parser `k` accepts the content and no parser before it does. */
  predicate FirstAccepting(x: Externals, content: Content, k: nat)
    requires k < |Parsers|
  {
    x.canParse(Parsers[k], content) && forall i :: 0 <= i < k ==> !x.canParse(Parsers[i], content)
  }

  /** Only one position can be the first accepting one, so the result is
      determined by which parsers accept. */
  lemma FirstAcceptingIsUnique(x: Externals, content: Content, j: nat, k: nat)
    requires j < |Parsers| && k < |Parsers|
    requires FirstAccepting(x, content, j) && FirstAccepting(x, content, k)
    ensures j == k
  {
    if j != k {
      assert false;
    }
  }

  /** The PNB parser wins every tie, and the SBI parser is chosen only when
      the other two decline. */
  lemma PriorityOrder(x: Externals, content: Content)
    ensures x.canParse(PNB, content) ==> FirstAccepting(x, content, 0) && Parsers[0] == PNB
    ensures FirstAccepting(x, content, 2) <==>
              x.canParse(SBI, content) && !x.canParse(PNB, content) && !x.canParse(Kotak, content)
  {
    assert Parsers[0] == PNB && Parsers[1] == Kotak && Parsers[2] == SBI;
  }
}
