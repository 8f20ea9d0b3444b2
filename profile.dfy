/**
 * Profile extraction: `get_company_info` reads eight labelled fields and the
 * revenue row from the company's profile page. The parsed page is given as
 * what the lookups on it return, not as markup.
 */
module Profile {
  import opened Wrappers
  import opened Revenue

  /** The `<p>` labels looked up on the profile page, in the order the dictionary lists them. */
  const Representative: string := "대표자"
  const HeadOffice: string := "본사주소"
  const GroupName: string := "그룹명"
  const BusinessNumber: string := "사업자번호"
  const CompanyType: string := "기업형태"
  const Industry: string := "산업"
  const Founded: string := "설립일자"
  const Listed: string := "상장일자"

  const FieldLabels: seq<string> :=
    [Representative, HeadOffice, GroupName, BusinessNumber, CompanyType, Industry, Founded, Listed]

  /**
   * The answer to the profile request. On a page, `labels` maps each label whose
   * `<p>` exists to the stripped text of the `<strong>` sibling that follows it,
   * or to None when there is no such sibling; `revenueRow` holds the texts of the
   * `td.tar` cells of the `tr.bdBck.fwb` row, in document order, when that row exists.
   */
  datatype ProfileResponse =
    | ProfileRequestFailed
    | ProfilePage(labels: map<string, Option<string>>, revenueRow: Option<seq<string>>)

  /**
   * The page can be read without an exception: a label that is present always has
   * its `<strong>` sibling (otherwise `.get_text` is called on None).
   */
  predicate LabelsReadable(labels: map<string, Option<string>>) {
    forall k :: k in labels && k in FieldLabels ==> labels[k].Some?
  }

  predicate ParsesWithoutError(response: ProfileResponse) {
    response.ProfilePage? ==> LabelsReadable(response.labels)
  }

  /** One conditional expression of the dictionary: the sibling's text, or "-" when the label is absent. */
  function FieldText(labels: map<string, Option<string>>, key: string): (r: string)
    requires key in FieldLabels && LabelsReadable(labels)
    ensures key !in labels ==> r == Placeholder
    ensures key in labels ==> Some(r) == labels[key]
  {
    if key in labels then labels[key].value else Placeholder
  }

  /** The eight-key `company_info` dictionary built from a page's labels. */
  function ProfileFields(labels: map<string, Option<string>>): (info: map<string, string>)
    requires LabelsReadable(labels)
    ensures forall k :: k in info <==> k in FieldLabels
    ensures forall k :: k in FieldLabels && k !in labels ==> info[k] == Placeholder
    ensures forall k :: k in FieldLabels && k in labels ==> Some(info[k]) == labels[k]
  {
    map k | k in FieldLabels :: FieldText(labels, k)
  }

  /** The labels are pairwise different (they already differ in their first character). */
  lemma FieldLabelsDistinct()
    ensures forall i, j :: 0 <= i < j < |FieldLabels| ==> FieldLabels[i] != FieldLabels[j]
  {
    var initials := seq(|FieldLabels|, i requires 0 <= i < |FieldLabels| => FieldLabels[i][0]);
    assert initials == "대본그사기산설상";
    assert forall i, j :: 0 <= i < j < |initials| ==> initials[i] != initials[j];
  }

  /** A sequence without repetitions has as many distinct elements as it is long. */
  lemma {:induction false} DistinctCount<T>(s: seq<T>)
    requires forall i, j :: 0 <= i < j < |s| ==> s[i] != s[j]
    ensures |set x | x in s| == |s|
  {
    if s != [] {
      var t := s[..|s| - 1];
      DistinctCount(t);
      assert (set x | x in s) == (set x | x in t) + {s[|s| - 1]};
    }
  }

  /** The dictionary has exactly eight keys. */
  lemma ProfileFieldsHasEightKeys(labels: map<string, Option<string>>)
    requires LabelsReadable(labels)
    ensures |ProfileFields(labels)| == |FieldLabels| == 8
  {
    FieldLabelsDistinct();
    DistinctCount(FieldLabels);
    assert ProfileFields(labels).Keys == set k | k in FieldLabels;
  }

  /**
   * Fields do not depend on one another: two pages whose label maps agree on
   * one label, whatever they hold for the others, give that label the same field.
   */
  lemma FieldsIndependent(labels: map<string, Option<string>>, labels': map<string, Option<string>>, key: string)
    requires LabelsReadable(labels) && LabelsReadable(labels')
    requires key in FieldLabels
    requires key in labels <==> key in labels'
    requires key in labels ==> labels[key] == labels'[key]
    ensures ProfileFields(labels)[key] == ProfileFields(labels')[key]
  {
  }

  /** The `company_info` half of the result: empty when the request failed. */
  function CompanyInfo(response: ProfileResponse): (info: map<string, string>)
    requires ParsesWithoutError(response)
    ensures response.ProfileRequestFailed? ==> info == map[]
    ensures response.ProfilePage? ==> info == ProfileFields(response.labels)
  {
    match response
    case ProfileRequestFailed => map[]
    case ProfilePage(labels, _) => ProfileFields(labels)
  }

  /** The `revenue_data` half of the result. */
  function RevenueData(response: ProfileResponse): (r: seq<string>)
    ensures response.ProfileRequestFailed? || response.revenueRow.None? ==>
              r == [Placeholder, Placeholder, Placeholder]
    ensures response.ProfilePage? && response.revenueRow.Some? ==>
              |r| == |response.revenueRow.value|
              && forall i :: 0 <= i < |r| ==> r[i] == NormaliseCell(response.revenueRow.value[i])
    ensures forall i :: 0 <= i < |r| ==> r[i] == Placeholder || IsGroupedNumeral(r[i])
  {
    match response
    case ProfileRequestFailed => [Placeholder, Placeholder, Placeholder]
    case ProfilePage(_, None) => [Placeholder, Placeholder, Placeholder]
    case ProfilePage(_, Some(cells)) => NormalisedCells(cells)
  }

  /** `get_company_info` once the page request has been answered. */
  method GetCompanyInfo(response: ProfileResponse) returns (info: map<string, string>, revenueData: seq<string>)
    requires ParsesWithoutError(response)
    ensures info == CompanyInfo(response)
    ensures revenueData == RevenueData(response)
  {
    match response
    case ProfileRequestFailed =>
      info, revenueData := map[], [Placeholder, Placeholder, Placeholder];
    case ProfilePage(labels, row) =>
      info := ProfileFields(labels);
      if row.Some? {
        revenueData := NormaliseRevenueCells(row.value);
      } else {
        revenueData := [Placeholder, Placeholder, Placeholder];
      }
  }
}
