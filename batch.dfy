/**
 * The batch loop of `main`: for each company name, in order, look up its code;
 * for a name whose code is found, read the company's data and append one row,
 * and skip the others. The two lookups are parameters: `resolve` stands for
 * `find_kiscode_from_naver_search` (modelled by `FindKiscode` once the search
 * page is known) and `extract` for `get_company_info` (modelled by
 * `GetCompanyInfo` once the profile page is known).
 */
module Batch {
  import opened Wrappers
  import opened Kiscode
  import opened Revenue
  import opened Profile

  /**
   * One result row: the columns 업체명, kiscode, the eight profile labels and
   * "2023년 매출", "2022년 매출", "2021년 매출", in that order.
   */
  datatype Row = Row(
    companyName: string,
    kiscode: string,
    representative: string,
    headOffice: string,
    groupName: string,
    businessNumber: string,
    companyType: string,
    industry: string,
    founded: string,
    listed: string,
    revenue2023: string,
    revenue2022: string,
    revenue2021: string)

  /** What `get_company_info` returns: `company_info` and `revenue_data`. */
  type CompanyData = (map<string, string>, seq<string>)

  /** `company_info.get(key, '-')`. */
  function Get(info: map<string, string>, key: string): (r: string)
    ensures key in info ==> r == info[key]
    ensures key !in info ==> r == Placeholder
  {
    if key in info then info[key] else Placeholder
  }

  /** The eight profile columns of a row, in the order of `FieldLabels`. */
  function ProfileColumns(r: Row): seq<string> {
    [r.representative, r.headOffice, r.groupName, r.businessNumber,
     r.companyType, r.industry, r.founded, r.listed]
  }

  /**
   * The row `main` builds for a found code: the j-th profile column holds the
   * j-th label's entry, or "-" when the dictionary lacks it, and the three
   * revenue columns are `revenue_data[0]` to `[2]`.
   */
  function MakeRow(name: string, kiscode: string, info: map<string, string>, revenueData: seq<string>): (r: Row)
    requires |revenueData| >= 3
    ensures r.companyName == name && r.kiscode == kiscode
    ensures |ProfileColumns(r)| == |FieldLabels|
    ensures forall j :: 0 <= j < |FieldLabels| ==>
              ProfileColumns(r)[j] == (if FieldLabels[j] in info then info[FieldLabels[j]] else Placeholder)
    ensures [r.revenue2023, r.revenue2022, r.revenue2021] == revenueData[..3]
  {
    Row(name, kiscode,
        Get(info, Representative), Get(info, HeadOffice), Get(info, GroupName),
        Get(info, BusinessNumber), Get(info, CompanyType), Get(info, Industry),
        Get(info, Founded), Get(info, Listed),
        revenueData[0], revenueData[1], revenueData[2])
  }

  /** The `if kiscode:` test: a code was returned and it is not the empty string. */
  predicate Found(lookup: Option<Lookup>) {
    lookup.Some? && lookup.value.kiscode != ""
  }

  /**
   * Processing `name` raises no exception: if its code is found, the company's
   * data holds at least three revenue entries.
   */
  predicate Processable(name: string, resolve: string -> Option<Lookup>, extract: string -> CompanyData) {
    Found(resolve(name)) ==> |extract(resolve(name).value.kiscode).1| >= 3
  }

  predicate AllProcessable(names: seq<string>, resolve: string -> Option<Lookup>, extract: string -> CompanyData) {
    forall i :: 0 <= i < |names| ==> Processable(names[i], resolve, extract)
  }

  /** The row `main` appends for one name, or None when no code is found for it. */
  function RowFor(name: string, resolve: string -> Option<Lookup>, extract: string -> CompanyData): (r: Option<Row>)
    requires Processable(name, resolve, extract)
    ensures r.Some? <==> Found(resolve(name))
    ensures r.Some? ==> r.value.companyName == name && r.value.kiscode == resolve(name).value.kiscode
  {
    var lookup := resolve(name);
    if Found(lookup) then
      var data := extract(lookup.value.kiscode);
      Some(MakeRow(name, lookup.value.kiscode, data.0, data.1))
    else None
  }

  /** The `results` list after the loop has seen `names`. */
  function Rows(names: seq<string>, resolve: string -> Option<Lookup>, extract: string -> CompanyData): seq<Row>
    requires AllProcessable(names, resolve, extract)
  {
    if names == [] then []
    else
      var rest := Rows(names[..|names| - 1], resolve, extract);
      match RowFor(names[|names| - 1], resolve, extract)
      case None => rest
      case Some(row) => rest + [row]
  }

  /** The loop of `main` over the names, accumulating `results`. */
  method CollectRows(names: seq<string>, resolve: string -> Option<Lookup>, extract: string -> CompanyData)
    returns (results: seq<Row>)
    requires AllProcessable(names, resolve, extract)
    ensures results == Rows(names, resolve, extract)
  {
    results := [];
    for i := 0 to |names|
      invariant results == Rows(names[..i], resolve, extract)
    {
      assert names[..i + 1][..i] == names[..i];
      var lookup := resolve(names[i]);
      if lookup.Some? && lookup.value.kiscode != "" {
        var (info, revenueData) := extract(lookup.value.kiscode);
        var result := MakeRow(names[i], lookup.value.kiscode, info, revenueData);
        results := results + [result];
      }
    }
    assert names[..|names|] == names;
  }

  /** The positions of the names whose code is found, in increasing order. */
  function FoundPositions(names: seq<string>, resolve: string -> Option<Lookup>): (r: seq<nat>)
    ensures forall k :: 0 <= k < |r| ==> r[k] < |names| && Found(resolve(names[r[k]]))
    ensures forall k, l :: 0 <= k < l < |r| ==> r[k] < r[l]
  {
    if names == [] then []
    else
      var n := |names| - 1;
      var rest := FoundPositions(names[..n], resolve);
      assert forall i :: 0 <= i < n ==> names[..n][i] == names[i];
      if Found(resolve(names[n])) then rest + [n] else rest
  }

  /** Every name whose code is found has its position listed. */
  lemma {:induction false} FoundPositionsComplete(names: seq<string>, resolve: string -> Option<Lookup>)
    ensures forall i :: 0 <= i < |names| && Found(resolve(names[i])) ==> i in FoundPositions(names, resolve)
  {
    if names != [] {
      var n := |names| - 1;
      FoundPositionsComplete(names[..n], resolve);
      assert forall i :: 0 <= i < n ==> names[..n][i] == names[i];
    }
  }

  /**
   * The rows are exactly one per name whose code is found, in input order: the
   * k-th row is the row of the k-th such name.
   */
  lemma {:induction false} RowsFollowFoundNames(names: seq<string>, resolve: string -> Option<Lookup>, extract: string -> CompanyData)
    requires AllProcessable(names, resolve, extract)
    ensures var positions := FoundPositions(names, resolve);
            && |Rows(names, resolve, extract)| == |positions|
            && forall k :: 0 <= k < |positions| ==>
                 RowFor(names[positions[k]], resolve, extract) == Some(Rows(names, resolve, extract)[k])
  {
    if names != [] {
      var n := |names| - 1;
      var prefix := names[..n];
      assert forall i :: 0 <= i < n ==> prefix[i] == names[i];
      RowsFollowFoundNames(prefix, resolve, extract);
      var positions, positions' := FoundPositions(names, resolve), FoundPositions(prefix, resolve);
      var rows, rows' := Rows(names, resolve, extract), Rows(prefix, resolve, extract);
      forall k | 0 <= k < |positions|
        ensures RowFor(names[positions[k]], resolve, extract) == Some(rows[k])
      {
        if k < |positions'| {
          assert positions[k] == positions'[k] && rows[k] == rows'[k];
          assert names[positions'[k]] == prefix[positions'[k]];
        }
      }
    }
  }

  /** A row carries the name as given, the code found for it and the first three revenue entries. */
  lemma RowIdentity(name: string, resolve: string -> Option<Lookup>, extract: string -> CompanyData)
    requires Processable(name, resolve, extract)
    requires Found(resolve(name))
    ensures var kiscode := resolve(name).value.kiscode;
            var row := RowFor(name, resolve, extract).value;
            && row.companyName == name
            && row.kiscode == kiscode
            && [row.revenue2023, row.revenue2022, row.revenue2021] == extract(kiscode).1[..3]
  {
  }

  /** The company data `GetCompanyInfo` returns for `response` is what `extract` gave for the code of `name`. */
  predicate ExtractedFrom(name: string, resolve: string -> Option<Lookup>, extract: string -> CompanyData, response: ProfileResponse)
    requires Found(resolve(name))
  {
    ParsesWithoutError(response)
    && extract(resolve(name).value.kiscode) == (CompanyInfo(response), RevenueData(response))
  }

  /** A failed profile request still gives a row, with "-" in all eleven data columns. */
  lemma RowAfterFailedFetch(name: string, resolve: string -> Option<Lookup>, extract: string -> CompanyData, response: ProfileResponse)
    requires Found(resolve(name)) && ExtractedFrom(name, resolve, extract, response)
    requires response.ProfileRequestFailed?
    ensures Processable(name, resolve, extract)
    ensures var row := RowFor(name, resolve, extract).value;
            && row.representative == row.headOffice == row.groupName == row.businessNumber == Placeholder
            && row.companyType == row.industry == row.founded == row.listed == Placeholder
            && row.revenue2023 == row.revenue2022 == row.revenue2021 == Placeholder
  {
  }

  /** On a page, each profile column is the field's text, or "-" when its label is absent. */
  lemma RowProfileColumns(name: string, resolve: string -> Option<Lookup>, extract: string -> CompanyData, response: ProfileResponse)
    requires Found(resolve(name)) && ExtractedFrom(name, resolve, extract, response)
    requires Processable(name, resolve, extract)
    requires response.ProfilePage?
    ensures var labels := response.labels;
            var row := RowFor(name, resolve, extract).value;
            && row.representative == FieldText(labels, Representative)
            && row.headOffice == FieldText(labels, HeadOffice)
            && row.groupName == FieldText(labels, GroupName)
            && row.businessNumber == FieldText(labels, BusinessNumber)
            && row.companyType == FieldText(labels, CompanyType)
            && row.industry == FieldText(labels, Industry)
            && row.founded == FieldText(labels, Founded)
            && row.listed == FieldText(labels, Listed)
  {
    assert FieldLabels[0] == Representative && FieldLabels[1] == HeadOffice;
    assert FieldLabels[2] == GroupName && FieldLabels[3] == BusinessNumber;
    assert FieldLabels[4] == CompanyType && FieldLabels[5] == Industry;
    assert FieldLabels[6] == Founded && FieldLabels[7] == Listed;
  }

  /** Three names of which the middle one is not found give the first and the last row, in that order. */
  lemma UnresolvedNameIsSkipped(a: string, b: string, c: string, resolve: string -> Option<Lookup>, extract: string -> CompanyData)
    requires Processable(a, resolve, extract) && Processable(b, resolve, extract) && Processable(c, resolve, extract)
    requires Found(resolve(a)) && !Found(resolve(b)) && Found(resolve(c))
    ensures AllProcessable([a, b, c], resolve, extract)
    ensures Rows([a, b, c], resolve, extract) == [RowFor(a, resolve, extract).value, RowFor(c, resolve, extract).value]
  {
    assert [a, b, c][..2] == [a, b] && [a, b][..1] == [a] && [a][..0] == [];
    assert AllProcessable([a, b, c], resolve, extract);
    var ra, rc := RowFor(a, resolve, extract).value, RowFor(c, resolve, extract).value;
    assert Rows([a], resolve, extract) == [ra];
    assert Rows([a, b], resolve, extract) == [ra];
  }

  /**
   * With the search-page resolver, the `if kiscode:` test is the same as "a code
   * was returned", and every code found is non-empty and alphanumeric.
   */
  lemma SearchCodesAreFound(search: string -> SearchResponse, name: string)
    ensures var lookup := FindKiscode(search(name));
            && (Found(lookup) <==> lookup.Some?)
            && (lookup.Some? ==> AllAlnum(lookup.value.kiscode))
  {
  }
}
