/** Canonical inventory rows of an AI bill of materials and the text cleaning they go through (aibom.py). */
module AiBomItems {
  import opened Outcomes
  import opened Orders

  // --------------------------------------------------------------------- text

  /** `str.isspace` for one character. */
  predicate IsSpace(c: char)
  {
    var n := c as int;
    0x09 <= n <= 0x0d || 0x1c <= n <= 0x20 || n == 0x85 || n == 0xa0 || n == 0x1680 || 0x2000 <= n <= 0x200a
    || n == 0x2028 || n == 0x2029 || n == 0x202f || n == 0x205f || n == 0x3000
  }

  function StripLeft(s: string): (r: string)
    ensures |r| <= |s| && (r != "" ==> !IsSpace(r[0]))
  {
    if s != "" && IsSpace(s[0]) then StripLeft(s[1..]) else s
  }

  function StripRight(s: string): (r: string)
    ensures |r| <= |s| && r == s[..|r|] && (r != "" ==> !IsSpace(r[|r| - 1]))
    ensures s != "" && !IsSpace(s[|s| - 1]) ==> r == s
  {
    if s != "" && IsSpace(s[|s| - 1]) then StripRight(s[..|s| - 1]) else s
  }

  function Strip(s: string): string { StripRight(StripLeft(s)) }

  /** `_text`: strip, then cut. */
  function Cleaned(value: string, limit: nat): (r: string)
    ensures |r| <= limit
  {
    var s := Strip(value);
    if |s| <= limit then s else s[..limit]
  }

  predicate EndsInSpace(s: string) { s != "" && IsSpace(s[|s| - 1]) }

  predicate Canonical(s: string, limit: nat) { |s| <= limit && (s != "" ==> !IsSpace(s[0]) && !EndsInSpace(s)) }

  /** Canonical texts are exactly the fixed points of cleaning. */
  lemma CanonicalIff(s: string, limit: nat)
    ensures Canonical(s, limit) <==> Cleaned(s, limit) == s
  {
    if Cleaned(s, limit) == s {
      assert |Strip(s)| <= |s|;
    }
  }

  /** The cut falls right behind a white-space character of the stripped text. */
  predicate CutBehindSpace(value: string, limit: nat)
  {
    |Strip(value)| > limit > 0 && IsSpace(Strip(value)[limit - 1])
  }

  /** Cleaning twice changes nothing, except when the cut falls right behind white space. */
  lemma CleaningTwiceIff(value: string, limit: nat)
    ensures Cleaned(Cleaned(value, limit), limit) == Cleaned(value, limit) <==> !CutBehindSpace(value, limit)
  {
    CanonicalIff(Cleaned(value, limit), limit);
    StartsClean(value, limit);
    EndsCleanIff(value, limit);
  }

  lemma EndsCleanIff(value: string, limit: nat)
    ensures EndsInSpace(Cleaned(value, limit)) <==> CutBehindSpace(value, limit)
  {
    var s := Strip(value);
    if |s| > limit {
      assert Cleaned(value, limit) == s[..limit];
    }
  }

  lemma StartsClean(value: string, limit: nat)
    ensures Cleaned(value, limit) != "" ==> !IsSpace(Cleaned(value, limit)[0])
  {
    var left := StripLeft(value);
    var s := StripRight(left);
    assert s == left[..|s|];
  }

  /** An over-long value whose cut falls behind a space: importing its export would shorten it again. */
  lemma CutLeavesSpace()
    ensures EndsInSpace(Cleaned("a b", 2)) && Cleaned(Cleaned("a b", 2), 2) == "a"
  {
    assert StripLeft("a b") == "a b" && StripRight("a b") == "a b";
    assert "a b"[..2] == "a ";
    assert StripLeft("a ") == "a ";
    assert "a "[..1] == "a";
    assert StripRight("a ") == StripRight("a");
  }

  // ----------------------------------------------------------------- licenses

  const LICENSE_LIMIT := 256

  /** An entry of a `licenses` list: a bare text, an object's `id` and `name`, or something else. */
  datatype LicenseEntry = Bare(text: string) | Named(id: string, name: string) | Unusable

  function LicenseText(e: LicenseEntry): string
  {
    match e
    case Bare(text) => Cleaned(text, LICENSE_LIMIT)
    case Named(id, name) => Cleaned(if id != "" then id else name, LICENSE_LIMIT)
    case Unusable => ""
  }

  /** Append a text unless it is empty or already there. */
  function AddNew(found: seq<string>, text: string): seq<string>
  {
    if text == "" || text in found then found else found + [text]
  }

  function Licenses(entries: seq<LicenseEntry>): seq<string>
  {
    if entries == [] then [] else AddNew(Licenses(entries[..|entries| - 1]), LicenseText(entries[|entries| - 1]))
  }

  /** `_licenses` */
  method CollectLicenses(entries: seq<LicenseEntry>) returns (found: seq<string>)
    ensures found == Licenses(entries)
  {
    found := [];
    for i := 0 to |entries|
      invariant found == Licenses(entries[..i])
    {
      assert entries[..i + 1][..i] == entries[..i];
      var text := LicenseText(entries[i]);
      if !entries[i].Unusable? && text != "" && text !in found {
        found := found + [text];
      }
    }
    assert entries[..|entries|] == entries;
  }

  predicate CanonicalLicenses(licenses: seq<string>)
  {
    forall x :: x in licenses ==> x != "" && Canonical(x, LICENSE_LIMIT)
  }

  function AddAll(texts: seq<string>): seq<string>
  {
    if texts == [] then [] else AddNew(AddAll(texts[..|texts| - 1]), texts[|texts| - 1])
  }

  lemma {:induction false} AddAllDistinct(texts: seq<string>)
    requires Distinct(texts) && "" !in texts
    ensures AddAll(texts) == texts
  {
    if texts != [] {
      var k := |texts| - 1;
      assert texts == texts[..k] + [texts[k]];
      AddAllDistinct(texts[..k]);
    }
  }

  lemma {:induction false} LicensesAreDistinct(entries: seq<LicenseEntry>)
    ensures Distinct(Licenses(entries)) && "" !in Licenses(entries)
  {
    if entries != [] {
      LicensesAreDistinct(entries[..|entries| - 1]);
    }
  }

  function Identified(text: string): LicenseEntry { Named(text, "") }

  /** Distinct canonical licenses survive being written as license objects. */
  lemma {:induction false} LicensesRoundTrip(licenses: seq<string>)
    requires Distinct(licenses) && CanonicalLicenses(licenses)
    ensures Licenses(Map(licenses, Identified)) == licenses
  {
    if licenses != [] {
      var k := |licenses| - 1;
      assert licenses == licenses[..k] + [licenses[k]];
      assert licenses[k] in licenses;
      forall x | x in licenses[..k] ensures x in licenses {}
      LicensesRoundTrip(licenses[..k]);
      assert Map(licenses, Identified)[..k] == Map(licenses[..k], Identified);
      CanonicalIff(licenses[k], LICENSE_LIMIT);
    }
  }

  // -------------------------------------------------------------------- items

  datatype Kind = Model | Data | Application | Library

  /** A non-empty `modelParameters` object by its sorted JSON text and that text's UTF-8 length. */
  datatype Parameters = Parameters(json: string, bytes: nat)

  const MAX_MODEL_PARAMETERS_BYTES := 64 * 1024

  datatype Item = Item(id: string, name: string, version: string, kind: Kind, description: string, purl: string,
                       licenses: seq<string>, modelCard: bool, parameters: Option<Parameters>)

  const NAME_LIMIT := 1024
  const PURL_LIMIT := 2048
  const TEXT_LIMIT := 4096

  /** What an import writes when no cut left a trailing space. */
  predicate CanonicalItem(item: Item)
  {
    && item.id != "" && item.name != ""
    && Canonical(item.id, NAME_LIMIT) && Canonical(item.name, NAME_LIMIT) && Canonical(item.version, NAME_LIMIT)
    && Canonical(item.description, TEXT_LIMIT) && Canonical(item.purl, PURL_LIMIT)
    && CanonicalLicenses(item.licenses)
    && (item.parameters.Some? ==> item.parameters.value.bytes <= MAX_MODEL_PARAMETERS_BYTES)
  }

  ghost predicate CanonicalItems(items: seq<Item>)
  {
    forall item :: item in items ==> CanonicalItem(item) && Distinct(item.licenses)
  }

  /** The values a list of optional values holds, in order. */
  function Present<T>(found: seq<Option<T>>): seq<T>
  {
    if found == [] then []
    else
      var k := |found| - 1;
      if found[k].Some? then Present(found[..k]) + [found[k].value] else Present(found[..k])
  }

  lemma {:induction false} PresentAppend<T>(a: seq<Option<T>>, b: seq<Option<T>>)
    ensures Present(a + b) == Present(a) + Present(b)
  {
    if b == [] {
      assert a + b == a;
    } else {
      var k := |b| - 1;
      assert (a + b)[..|a| + k] == a + b[..k];
      PresentAppend(a, b[..k]);
    }
  }

  lemma {:induction false} PresentAll<T>(found: seq<Option<T>>, values: seq<T>)
    requires |found| == |values| && forall i :: 0 <= i < |found| ==> found[i] == Some(values[i])
    ensures Present(found) == values
  {
    if found != [] {
      var k := |found| - 1;
      PresentAll(found[..k], values[..k]);
      assert values == values[..k] + [values[k]];
    }
  }
}
