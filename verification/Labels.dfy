// Filesystem labels derived from volume names: normalizeLabel followed by
// truncateNFSLabelToMaxBytes, on ASCII names.
module Labels {
  import opened Text

  const NFS_LABEL_MAX_BYTES: nat := 63

  function LowerChar(c: char): char {
    if 'A' <= c <= 'Z' then c - 'A' + 'a' else c
  }

  function UpperChar(c: char): char {
    if 'a' <= c <= 'z' then c - 'a' + 'A' else c
  }

  function Normalize(name: string): string {
    seq(|name|, i requires 0 <= i < |name| => LowerChar(name[i]))
  }

  function Truncate(text: string): string {
    if |text| <= NFS_LABEL_MAX_BYTES then text
    else TrimRight(text[..NFS_LABEL_MAX_BYTES], {'-'})
  }

  function LabelOf(name: string): string {
    Truncate(Normalize(name))
  }

  // Lowercasing changes the letters A to Z alone.
  lemma NormalizeIsLowercase(name: string)
    ensures |Normalize(name)| == |name|
    ensures forall i | 0 <= i < |name| ::
              if 'A' <= name[i] <= 'Z' then Normalize(name)[i] as int - 'a' as int == name[i] as int - 'A' as int
              else Normalize(name)[i] == name[i]
  {
  }

  predicate EndsInHyphen(s: string) {
    s != "" && s[|s| - 1] == '-'
  }

  lemma {:induction false} TrimRightIsLongest(s: string)
    ensures var r := TrimRight(s, {'-'});
            && r <= s && !EndsInHyphen(r)
            && forall p: string | p <= s && !EndsInHyphen(p) :: p <= r
  {
    if EndsInHyphen(s) {
      var init := s[..|s| - 1];
      TrimRightIsLongest(init);
      forall p: string | p <= s && !EndsInHyphen(p) ensures p <= TrimRight(s, {'-'}) {
        assert p != s;
        assert p <= init;
      }
    }
  }

  // A long name keeps its longest prefix that fits and does not end in a
  // hyphen; a name that fits is only lowercased.
  lemma LabelIsLongestFittingPrefix(name: string)
    ensures var lower, text := Normalize(name), LabelOf(name);
            && |text| <= NFS_LABEL_MAX_BYTES && text <= lower
            && (|name| <= NFS_LABEL_MAX_BYTES ==> text == lower)
            && (|name| > NFS_LABEL_MAX_BYTES ==>
                  && !EndsInHyphen(text)
                  && forall p: string | p <= lower && |p| <= NFS_LABEL_MAX_BYTES && !EndsInHyphen(p) :: p <= text)
  {
    var lower := Normalize(name);
    if |name| > NFS_LABEL_MAX_BYTES {
      TrimRightIsLongest(lower[..NFS_LABEL_MAX_BYTES]);
    }
  }

  lemma LabelIsIdempotent(name: string)
    ensures LabelOf(LabelOf(name)) == LabelOf(name)
  {
    LabelIsLongestFittingPrefix(name);
    var text := LabelOf(name);
    forall i | 0 <= i < |text| ensures LowerChar(text[i]) == text[i] {
      assert text[i] == Normalize(name)[i] == LowerChar(name[i]);
    }
    assert Normalize(text) == text;
  }

  // Names that differ only in letter case share their label.
  lemma LabelIgnoresCase(a: string, b: string)
    requires |a| == |b| && forall i | 0 <= i < |a| :: UpperChar(a[i]) == UpperChar(b[i])
    ensures LabelOf(a) == LabelOf(b)
  {
    forall i | 0 <= i < |a| ensures LowerChar(a[i]) == LowerChar(b[i]) {
      assert UpperChar(a[i]) == UpperChar(b[i]);
    }
    assert Normalize(a) == Normalize(b);
  }

  // A label is empty only when the name is empty, or is too long and starts
  // with nothing but hyphens.
  lemma EmptyLabel(name: string)
    ensures LabelOf(name) == "" <==>
            name == "" || (|name| > NFS_LABEL_MAX_BYTES && forall i | 0 <= i < NFS_LABEL_MAX_BYTES :: name[i] == '-')
  {
    if |name| > NFS_LABEL_MAX_BYTES {
      var head := Normalize(name)[..NFS_LABEL_MAX_BYTES];
      TrimRightIsLongest(head);
      OnlyHyphens(head);
      assert forall i | 0 <= i < NFS_LABEL_MAX_BYTES :: head[i] == '-' <==> name[i] == '-';
    }
  }

  lemma {:induction false} OnlyHyphens(s: string)
    ensures TrimRight(s, {'-'}) == "" <==> forall i | 0 <= i < |s| :: s[i] == '-'
  {
    if s != "" {
      var init := s[..|s| - 1];
      OnlyHyphens(init);
      if EndsInHyphen(s) {
        assert forall i | 0 <= i < |init| :: init[i] == s[i];
      }
    }
  }
}
