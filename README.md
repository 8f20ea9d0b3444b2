# Company lookup scraper: verified model of its deterministic core

The scraper turns a company name into a profile row in two web lookups. A
search-engine query yields a "more info" link whose `kiscode=` parameter is
the company code. The business-information page for that code then yields
eight labelled profile fields and a row of revenue figures in thousands. A
batch loop does this for every name of an uploaded sheet and collects one row
per name whose code was found.

This project models the three deterministic pieces of that pipeline in Dafny,
with the network and the HTML parser replaced by plain inputs:

- `kiscode.dfy` (module `Kiscode`): `re.search(r'kiscode=([A-Za-z0-9]+)', href)`
  as the leftmost-match scan `FirstMatch` plus the greedy run `RunEnd`. The
  resolver `FindKiscode` takes the answered search request: a transport failure,
  or the href of the first `a.info_more` anchor that has one, if there is such an anchor.
- `revenue.dfy` (module `Revenue`): cell cleaning (`replace(',', '')` and
  `replace(' ', '')`), ASCII `isdigit`, `int`, `str` and the `f"{n:,}"` grouping
  format. It also holds the per-cell normalisation and the loop that builds
  `revenue_data`.
- `profile.dfy` (module `Profile`): the eight-key `company_info` dictionary and
  the revenue list. `GetCompanyInfo` works on the answered profile request: a
  transport failure, or a page given as a label map and an optional list of
  revenue cell texts.
- `batch.dfy` (module `Batch`): the loop of `main` that appends one row per
  name whose code is found. It takes the two lookups as function parameters:
  `resolve` stands for `find_kiscode_from_naver_search` and `extract` for
  `get_company_info`.
- `wrappers.dfy` (module `Wrappers`): `Option`.

The inputs stand for the external pages and are fixed functions of the query.
So calling a lookup twice on an unchanged page gives the same answer by
construction.

Points where the code behaves differently from what a reader might expect. The
model follows the code as written:

- When the profile request fails, the code returns `({}, ['-'] * 3)`, and `main`
  still appends a row for the name; the name is not skipped. The eight profile
  columns of that row are `"-"` through `.get(key, '-')` on the empty
  dictionary. The three revenue columns are `"-"` because they are read from the
  `['-'] * 3` list (`Batch.RowAfterFailedFetch`). The dictionary returned for a
  failed request is empty, not eight keys mapped to `"-"`.
- A label `<p>` that has no `<strong>` sibling makes the code raise
  `AttributeError`; that field does not become `"-"`. The model states this
  crash as a precondition (`Profile.LabelsReadable`).
- The revenue list has one entry per `td.tar` cell, not always three. `main`
  crashes when there are fewer than three and ignores any extra ones. The
  model states this as the precondition `Batch.Processable`.
- The text of a field is whatever `get_text(strip=True)` returns. No other
  whitespace is collapsed.

## Model

| member | source | states |
|---|---|---|
| `Kiscode.FirstMatch` | streamlit_app.py:43 | the index returned is the first position at or after `from` where `kiscode=` is followed by an alphanumeric; None exactly when no such position exists |
| `Kiscode.RunEnd` | streamlit_app.py:43 | the greedy `[A-Za-z0-9]+` stops at the end of the maximal alphanumeric run: every character before it is alphanumeric and the next one is not, or the string ends |
| `Kiscode.Search` | streamlit_app.py:43-44 | `re.search` returns the leftmost match, whose group 1 is non-empty, alphanumeric, sits right after `kiscode=` and is maximal; it returns None exactly when the pattern matches nowhere |
| `Kiscode.RunEndUnique` | streamlit_app.py:43 | a maximal alphanumeric run from a given start has only one end |
| `Kiscode.LeftmostMatchUnique` | streamlit_app.py:43 | the leftmost-match conditions determine the match completely, so the extracted code is well defined |
| `Kiscode.FindKiscode` | streamlit_app.py:41-49 | a found code comes from a successful page with a "more info" link; the second value is that href unchanged; the code is non-empty and alphanumeric |
| `Kiscode.FindKiscodeMatchesPattern` | streamlit_app.py:36-49 | a code is found if and only if the request succeeded, the link exists and the pattern matches in its href; the code is group 1 of the leftmost match; otherwise (failed request, no link, no `kiscode=`, nothing alphanumeric after it) the result is `(None, None)` |
| `Kiscode.ContainsKey` | streamlit_app.py:42 | defines the `'kiscode=' in href` test: the key occurs at some position of the href |
| `Kiscode.GuardImpliedByMatch` | streamlit_app.py:42-43 | the `'kiscode=' in href` test never rejects an href the pattern matches |
| `Kiscode.CodeAfterKeyIsFound` | streamlit_app.py:41-45 | an href of the form prefix + `kiscode=` + code + rest, where rest does not continue the code and no earlier match exists, resolves to exactly that code and that href |
| `Revenue.IsDigitString` | streamlit_app.py:80 | defines `isdigit` on the cleaned text: non-empty and every character an ASCII digit |
| `Revenue.ParseDigits` | streamlit_app.py:81 | defines `int` on a digit string, leading zeros allowed; its properties are stated by `ParseAppend`, `LeadingDigitPositive` and `CanonicalNumeral` |
| `Revenue.Decimal` | streamlit_app.py:81 | `str(n)` is a non-empty digit string that starts with `0` only for 0 and parses back to `n` |
| `Revenue.ParseAppend` | streamlit_app.py:81 | `int` of a concatenation of digit strings is the first value shifted by the length of the second, plus the second value |
| `Revenue.LeadingDigitPositive` | streamlit_app.py:81 | a digit string that does not start with `0` has a positive value |
| `Revenue.CanonicalNumeral` | streamlit_app.py:81 | a digit string without a leading zero is `str` of its own `int` value |
| `Revenue.Pad3` | streamlit_app.py:81 | a group after a comma is three digits whose value is the remainder it stands for |
| `Revenue.Grouped` | streamlit_app.py:81 | `f"{n:,}"` matches `^[0-9]{1,3}(,[0-9]{3})*$` and starts with `0` only for 0 |
| `Revenue.Clean` | streamlit_app.py:79 | after removing `,` and ` ` no comma or space remains; with `CleanDropsSeparator`, `CleanKeepsPlainText` and `CleanAppend` this fixes the result on every string: exactly the commas and spaces are removed and the other characters are kept in order |
| `Revenue.CleanDropsSeparator` | streamlit_app.py:79 | a comma or a space is deleted, not replaced by anything |
| `Revenue.CleanKeepsPlainText` | streamlit_app.py:79 | text that holds no comma or space is left unchanged |
| `Revenue.CleanAppend` | streamlit_app.py:79 | removing separators from a concatenation removes them from each part |
| `Revenue.GroupedRoundTrip` | streamlit_app.py:81 | deleting the commas of `f"{n:,}"` gives back `str(n)` |
| `Revenue.NormaliseCell` | streamlit_app.py:79-83 | a cell is `"-"` exactly when its cleaned text is not a non-empty digit string (the empty cell included); otherwise the output matches the grouping pattern and, without its commas, is the decimal of 1000 times the cell's value |
| `Revenue.NormalisedEntryReadsBack` | streamlit_app.py:79-83 | a numeric entry, read back as a cell is read, is a digit string whose value is 1000 times the original cell's value |
| `Revenue.GroupedExample` | streamlit_app.py:81 | `f"{1234000:,}"` is `1,234,000` |
| `Revenue.NumericCellExample` | streamlit_app.py:79-83 | the cell `"1234"` becomes `1,234,000` |
| `Revenue.SeparatedCellExample` | streamlit_app.py:79-83 | commas and spaces in a cell are ignored: `"1, 234"` also becomes `1,234,000` |
| `Revenue.NonNumericCellExamples` | streamlit_app.py:79-83 | `"abc"` and `""` become `"-"` |
| `Revenue.NormaliseRevenueCells` | streamlit_app.py:76-83 | the loop appends exactly one entry per cell, in document order, each the normalised cell, so each is `"-"` or a grouped numeral |
| `Profile.LabelsReadable` | streamlit_app.py:64-71 | defines the condition under which no `AttributeError` is raised: every label present on the page has its `<strong>` sibling |
| `Profile.FieldText` | streamlit_app.py:64-71 | a field is `"-"` when its label is absent and otherwise the text of the label's `<strong>` sibling |
| `Profile.ProfileFields` | streamlit_app.py:63-72 | `company_info` has exactly the eight labels as keys; each is its sibling's text, or `"-"` when the label is absent |
| `Profile.FieldLabelsDistinct` | streamlit_app.py:64-71 | the eight labels are pairwise different |
| `Profile.ProfileFieldsHasEightKeys` | streamlit_app.py:63-72 | `company_info` has eight entries |
| `Profile.FieldsIndependent` | streamlit_app.py:64-71 | a field depends only on what the page holds for its own label: two label maps that agree on a label (both absent, or the same sibling text) give that label the same field, whatever they hold for the others |
| `Profile.CompanyInfo` | streamlit_app.py:58-90 | after a failed request the dictionary is empty; on a page it is the eight-field dictionary |
| `Profile.RevenueData` | streamlit_app.py:74-90 | a failed request or a missing revenue row gives `["-","-","-"]`; a present row gives one normalised entry per cell in order; every entry is `"-"` or a grouped numeral |
| `Profile.GetCompanyInfo` | streamlit_app.py:52-90 | the method returns the dictionary and the revenue list described by `CompanyInfo` and `RevenueData` |
| `Batch.Get` | streamlit_app.py:112-119 | `.get(key, '-')` gives the stored text for a present key and `"-"` for a missing one |
| `Batch.MakeRow` | streamlit_app.py:109-123 | the row holds the name and the code; its j-th profile column is the j-th label's entry, or `"-"` when the dictionary lacks it; its revenue columns are `revenue_data[0]`, `[1]` and `[2]` |
| `Batch.Found` | streamlit_app.py:107 | defines `if kiscode:`: a code was returned and it is not empty |
| `Batch.Processable` | streamlit_app.py:120-122 | defines the condition under which no `IndexError` is raised: a found code's revenue list has at least three entries |
| `Batch.RowFor` | streamlit_app.py:106-124 | one iteration of the loop yields a row exactly when the code is found, and that row carries the input name and the resolved code |
| `Batch.CollectRows` | streamlit_app.py:104-124 | the loop's `results` is `Rows(names)`: the rows of the names whose code is found, in input order |
| `Batch.FoundPositions` | streamlit_app.py:105-107 | only positions of names whose code is found are listed, in strictly increasing order |
| `Batch.FoundPositionsComplete` | streamlit_app.py:105-107 | every position of a name whose code is found is listed |
| `Batch.RowsFollowFoundNames` | streamlit_app.py:104-126 | there is exactly one row per name whose code is found and none for the others; the k-th row is the row of the k-th such name |
| `Batch.RowIdentity` | streamlit_app.py:109-122 | a row's name and code are the input name and its resolved code; its three revenue columns are `revenue_data[0..2]` in order |
| `Batch.RowAfterFailedFetch` | streamlit_app.py:108-122 | when the profile request fails, the row still appears, with `"-"` in all eight profile and three revenue columns |
| `Batch.RowProfileColumns` | streamlit_app.py:112-119 | on a page, each profile column is the field's text, or `"-"` when its label is absent |
| `Batch.UnresolvedNameIsSkipped` | streamlit_app.py:104-126 | for names A, B, C where only B is not found, the rows are A's then C's |
| `Batch.SearchCodesAreFound` | streamlit_app.py:106-107 | with the search-page resolver, `if kiscode:` holds exactly when a code was returned, and that code is alphanumeric |

## Left out

- The Streamlit page (`st.title`, `st.file_uploader`, `st.error`, `st.write`) and the display of the result table: presentation only. The per-name "not found" and "request failed" messages are therefore not modelled.
- Reading the Excel upload with pandas and the check that the `업체명` column exists: input handling outside the core. The names arrive as a sequence of strings. Non-string cells such as NaN are not modelled.
- The `requests` session, the `TLSAdapter` and its cipher setting, the URLs, headers and query parameters: network plumbing. A request is modelled only by its outcome, a page or a transport failure (`SearchRequestFailed`, `ProfileRequestFailed`).
- BeautifulSoup parsing (`find`, `find_next_sibling`, `find_all`, `get_text`): a foreign library. Its results are inputs: the href of the first `a.info_more` that has one, a map from label to the optional text of its `<strong>` sibling, and the list of `td.tar` cell texts.
- Unicode behaviour of `str.isdigit` and `int`, and the whitespace stripping of `get_text(strip=True)`: digits are ASCII only and cell texts arrive already stripped.
- The two crash paths are preconditions, not outputs. A label without a `<strong>` sibling (`AttributeError`) is excluded by `Profile.LabelsReadable`. Fewer than three revenue entries for a found code (`IndexError` on `revenue_data[2]`) is excluded by `Batch.Processable`.
- Batch.CollectRows: takes `resolve` and `extract` as function parameters and does not itself call `FindKiscode` or `GetCompanyInfo` on pages. The lemmas `Batch.SearchCodesAreFound`, `Batch.RowAfterFailedFetch` and `Batch.RowProfileColumns` connect a row to those two models.
