/**
 * The pure parts of `app/vendor/page.tsx`: the bulk-upload text parser, the category
 * checkboxes and chips of the product form, the form's submit guard and the form filled
 * in for editing. React state, rendering and `fetch` are not modelled; each handler's
 * new state or request body is the result of a function.
 */
module VendorPage {
  import opened Wrappers
  import opened Text
  import opened JsArray
  import ProductsRoute
  import BulkRoute
  import Store

  // ---------------------------------------------------------------------------------
  // Bulk upload: one product per non-blank line, `name, image, whatsapp, instagram, a|b`
  // ---------------------------------------------------------------------------------

  /** One element of the `products` array the bulk form sends. */
  datatype UploadRow = UploadRow(
    name: string, image: string,
    whatsappLink: Option<string>, instagramLink: Option<string>,
    categories: seq<string>)

  const DefaultCategories: seq<string> := ["Uncategorized"]

  lemma TrimmedIsFixed(s: string)
    requires Trimmed(s)
    ensures Trim(s) == s
  {
    TrimByUnpadded(s, IsWhitespace);
  }

  /** A line holding some character that is not whitespace. */
  predicate NonBlank(line: string) {
    line != [] && (!IsWhitespace(line[0]) || NonBlank(line[1..]))
  }

  lemma {:induction false} NonBlankHasVisible(line: string)
    ensures NonBlank(line) <==> exists k :: 0 <= k < |line| && !IsWhitespace(line[k])
  {
    if line != [] {
      NonBlankHasVisible(line[1..]);
      if NonBlank(line[1..]) {
        var k :| 0 <= k < |line[1..]| && !IsWhitespace(line[1..][k]);
        assert !IsWhitespace(line[k + 1]);
      }
      if exists k :: 0 <= k < |line| && !IsWhitespace(line[k]) {
        var k :| 0 <= k < |line| && !IsWhitespace(line[k]);
        if k > 0 {
          assert !IsWhitespace(line[1..][k - 1]);
        }
      }
    }
  }

  /** The blank-line filter `line => line.trim()` keeps exactly the lines `NonBlank` holds for. */
  lemma NonBlankIsTrimTruthy(line: string)
    ensures NonBlank(line) <==> Trim(line) != ""
  {
    NonBlankHasVisible(line);
    TrimEmpty(line);
  }

  /** `parts.map(p => p.trim())`. */
  function TrimAll(parts: seq<string>): (r: seq<string>)
    ensures |r| == |parts|
    ensures forall k :: 0 <= k < |r| ==> r[k] == Trim(parts[k]) && Trimmed(r[k])
  {
    seq(|parts|, k requires 0 <= k < |parts| => Trim(parts[k]))
  }

  /** Trimming what is already trimmed changes nothing. */
  lemma TrimAllOfTrimmed(parts: seq<string>)
    requires forall k :: 0 <= k < |parts| ==> Trimmed(parts[k])
    ensures TrimAll(parts) == parts
  {
    forall k | 0 <= k < |parts| ensures Trim(parts[k]) == parts[k] {
      TrimmedIsFixed(parts[k]);
    }
  }

  /** The comma-separated fields of a line, each trimmed. */
  function Fields(line: string): seq<string> {
    TrimAll(Split(line, ","))
  }

  /** `parts[i] || ''`: a missing field reads as the empty string. */
  function Field(parts: seq<string>, i: nat): string {
    if i < |parts| then parts[i] else ""
  }

  /** `parts[i] || undefined`: a missing or empty field is absent. */
  function OptionalField(parts: seq<string>, i: nat): (r: Option<string>)
    ensures r.Some? ==> r.value != "" && i < |parts| && r.value == parts[i]
    ensures r.None? <==> i >= |parts| || parts[i] == ""
  {
    if i < |parts| && parts[i] != "" then Some(parts[i]) else None
  }

  /** The fifth field: its `|`-separated parts, trimmed, or `Uncategorized` when it is empty. */
  function CategoriesField(field: string): (cats: seq<string>)
    ensures |cats| >= 1
    ensures forall k :: 0 <= k < |cats| ==> Trimmed(cats[k])
    ensures field == "" ==> cats == DefaultCategories
    ensures field != "" ==> cats == TrimAll(Split(field, "|"))
  {
    if field != "" then TrimAll(Split(field, "|"))
    else DefaultCategories
  }

  /**
   * One line of the bulk text. Name and image default to `''`, empty links are absent,
   * and the fifth field, split on `|`, gives the categories; a missing or empty fifth
   * field gives `Uncategorized`. Fields after the fifth are not read.
   */
  function ParseLine(line: string): (r: UploadRow)
    ensures |r.categories| >= 1
    ensures forall k :: 0 <= k < |r.categories| ==> Trimmed(r.categories[k])
    ensures Trimmed(r.name) && Trimmed(r.image)
    ensures r.whatsappLink.Some? ==> r.whatsappLink.value != "" && Trimmed(r.whatsappLink.value)
    ensures r.instagramLink.Some? ==> r.instagramLink.value != "" && Trimmed(r.instagramLink.value)
    ensures |Fields(line)| < 5 || Fields(line)[4] == "" ==> r.categories == DefaultCategories
  {
    var parts := Fields(line);
    UploadRow(
      Field(parts, 0), Field(parts, 1),
      OptionalField(parts, 2), OptionalField(parts, 3),
      CategoriesField(Field(parts, 4)))
  }

  /** `lines.map(parseLine)`. */
  function ParseLines(lines: seq<string>): (rows: seq<UploadRow>)
    ensures |rows| == |lines|
    ensures forall k :: 0 <= k < |rows| ==> rows[k] == ParseLine(lines[k])
  {
    seq(|lines|, k requires 0 <= k < |lines| => ParseLine(lines[k]))
  }

  lemma ParseLinesAppend(x: seq<string>, y: seq<string>)
    ensures ParseLines(x + y) == ParseLines(x) + ParseLines(y)
  {
    var l, r := ParseLines(x + y), ParseLines(x) + ParseLines(y);
    assert |l| == |r|;
    forall k | 0 <= k < |l| ensures l[k] == r[k] {
      if k < |x| {
        assert (x + y)[k] == x[k];
      } else {
        assert (x + y)[k] == y[k - |x|];
      }
    }
  }

  /** `handleBulkSubmit`'s parser: split into lines, drop the blank ones, parse the rest in order. */
  function ParseBulk(text: string): (rows: seq<UploadRow>)
    ensures forall k :: 0 <= k < |rows| ==> |rows[k].categories| >= 1
  {
    ParseLines(Filter(Split(text, "\n"), NonBlank))
  }

  /** The text of two pieces joined by a line break parses as the rows of the first, then those of the second. */
  lemma ParseBulkLines(a: string, b: string)
    ensures ParseBulk(a + "\n" + b) == ParseBulk(a) + ParseBulk(b)
  {
    assert a + "\n" + b == a + ['\n'] + b;
    SplitAround(a, '\n', b);
    var la, lb := Split(a, "\n"), Split(b, "\n");
    FilterAppend(la, lb, NonBlank);
    ParseLinesAppend(Filter(la, NonBlank), Filter(lb, NonBlank));
  }

  /** A single line gives no row when blank and exactly its own row otherwise. */
  lemma ParseBulkOneLine(line: string)
    requires '\n' !in line
    ensures NonBlank(line) ==> ParseBulk(line) == [ParseLine(line)]
    ensures !NonBlank(line) ==> ParseBulk(line) == []
  {
    assert "\n" == ['\n'];
    SplitWithout(line, '\n');
    var kept := Filter([line], NonBlank);
    assert [line][1..] == [];
    assert kept == if NonBlank(line) then [line] else [];
  }

  /** Fields after the fifth are ignored. */
  lemma ExtraFieldsIgnored(line: string, extra: string)
    requires |Split(line, ",")| >= 5
    ensures ParseLine(line + "," + extra) == ParseLine(line)
  {
    var longer := line + "," + extra;
    assert longer == line + [','] + extra;
    SplitAround(line, ',', extra);
    var p, q := Split(line, ","), Split(longer, ",");
    assert q[..|p|] == p;
    TrimAllPrefix(p, q);
    SameFirstFields(Fields(line), Fields(longer), line, longer);
  }

  /** Trimming works piece by piece, so a common prefix of pieces stays common. */
  lemma TrimAllPrefix(p: seq<string>, q: seq<string>)
    requires |p| <= |q| && q[..|p|] == p
    ensures TrimAll(q)[..|p|] == TrimAll(p)
  {
    forall k | 0 <= k < |p| ensures TrimAll(q)[k] == TrimAll(p)[k] {
      assert q[k] == p[k];
    }
  }

  /** Lines whose first five fields agree parse to the same row. */
  lemma SameFirstFields(fp: seq<string>, fq: seq<string>, l1: string, l2: string)
    requires fp == Fields(l1) && fq == Fields(l2)
    requires 5 <= |fp| <= |fq| && fq[..|fp|] == fp
    ensures ParseLine(l2) == ParseLine(l1)
  {
    ParseLineShape(l1, fp);
    ParseLineShape(l2, fq);
    assert fq[0] == fp[0] && fq[1] == fp[1] && fq[2] == fp[2] && fq[3] == fp[3] && fq[4] == fp[4];
  }

  /** A parsed line is assembled from its trimmed fields. */
  lemma ParseLineShape(line: string, parts: seq<string>)
    requires parts == Fields(line)
    ensures ParseLine(line) == UploadRow(Field(parts, 0), Field(parts, 1), OptionalField(parts, 2),
                                         OptionalField(parts, 3), CategoriesField(Field(parts, 4)))
  {
  }

  /** Each field with the white space a vendor typed before and after it. */
  function Pad(fields: seq<string>, left: seq<string>, right: seq<string>): (r: seq<string>)
    requires |left| == |fields| && |right| == |fields|
    ensures |r| == |fields|
    ensures forall k :: 0 <= k < |r| ==> r[k] == left[k] + fields[k] + right[k]
  {
    seq(|fields|, k requires 0 <= k < |fields| => left[k] + fields[k] + right[k])
  }

  /**
   * White space typed around the fields does not change the row: a line whose fields
   * are `fields`, each padded on both sides with white space, parses like the line
   * holding the bare fields.
   */
  lemma PaddedFieldsIgnored(fields: seq<string>, left: seq<string>, right: seq<string>)
    requires |fields| >= 1 && |left| == |fields| && |right| == |fields|
    requires forall k :: 0 <= k < |fields| ==> Trimmed(fields[k]) && ',' !in fields[k]
    requires forall k :: 0 <= k < |fields| ==> IsBlank(left[k]) && IsBlank(right[k])
    ensures ParseLine(Join(Pad(fields, left, right), ",")) == ParseLine(Join(fields, ","))
  {
    var padded := Pad(fields, left, right);
    forall k | 0 <= k < |fields| ensures ',' !in padded[k] && Trim(padded[k]) == Trim(fields[k]) {
      PaddedFieldTrims(fields[k], left[k], right[k]);
    }
    SameTrimmedParts(padded, fields, Join(padded, ","), Join(fields, ","));
  }

  lemma PaddedFieldTrims(field: string, left: string, right: string)
    requires Trimmed(field) && ',' !in field && IsBlank(left) && IsBlank(right)
    ensures ',' !in left + field + right && Trim(left + field + right) == Trim(field)
  {
    TrimByAround(left, field, right, IsWhitespace);
    TrimmedIsFixed(field);
  }

  /** Only white space: `IsBlank(s)` for the padding a vendor may type around a field. */
  predicate IsBlank(s: string) {
    forall k :: 0 <= k < |s| ==> IsWhitespace(s[k])
  }

  /** Lines joined from comma-free parts that trim alike parse alike. */
  lemma SameTrimmedParts(ps: seq<string>, qs: seq<string>, lp: string, lq: string)
    requires |ps| >= 1 && |ps| == |qs|
    requires forall k :: 0 <= k < |ps| ==> ',' !in ps[k] && ',' !in qs[k] && Trim(ps[k]) == Trim(qs[k])
    requires lp == Join(ps, ",") && lq == Join(qs, ",")
    ensures ParseLine(lp) == ParseLine(lq)
  {
    assert "," == [','];
    SplitJoin(ps, ',');
    SplitJoin(qs, ',');
    var fp, fq := Fields(lp), Fields(lq);
    assert fp == fq;
    ParseLineShape(lp, fp);
    ParseLineShape(lq, fq);
  }

  /** A field text the parser reproduces: already trimmed, with no comma and no line break. */
  predicate Clean(s: string) {
    Trimmed(s) && ',' !in s && '\n' !in s
  }

  predicate CleanCategory(c: string) {
    c != "" && Clean(c) && '|' !in c
  }

  predicate CleanLink(link: Option<string>) {
    link.None? || (link.value != "" && Clean(link.value))
  }

  /** Rows the bulk format can express exactly. */
  predicate Expressible(row: UploadRow) {
    && Clean(row.name) && Clean(row.image)
    && CleanLink(row.whatsappLink) && CleanLink(row.instagramLink)
    && |row.categories| >= 1
    && forall k :: 0 <= k < |row.categories| ==> CleanCategory(row.categories[k])
  }

  function LinkText(link: Option<string>): string {
    if link.Some? then link.value else ""
  }

  /** The five field texts a vendor would type for a row. */
  function FieldTexts(row: UploadRow): seq<string>
    requires |row.categories| >= 1
  {
    [row.name, row.image, LinkText(row.whatsappLink), LinkText(row.instagramLink), Join(row.categories, "|")]
  }

  /** The line a vendor would type for a row, in the format the form documents. */
  function FormatLine(row: UploadRow): string
    requires Expressible(row)
  {
    Join(FieldTexts(row), ",")
  }

  /** The whole bulk text for a list of rows, one line each. */
  function FormatBulk(rows: seq<UploadRow>): string
    requires forall k :: 0 <= k < |rows| ==> Expressible(rows[k])
  {
    if rows == [] then ""
    else Join(seq(|rows|, k requires 0 <= k < |rows| => FormatLine(rows[k])), "\n")
  }

  lemma CleanCategoriesJoin(cats: seq<string>)
    requires |cats| >= 1 && forall k :: 0 <= k < |cats| ==> CleanCategory(cats[k])
    ensures var j := Join(cats, "|");
      Clean(j) && j != [] && !IsWhitespace(j[|j| - 1]) && Split(j, "|") == cats
  {
    var j := Join(cats, "|");
    JoinWithout(cats, "|", ',');
    JoinWithout(cats, "|", '\n');
    JoinEnds(cats, "|");
    var first, last := cats[0], cats[|cats| - 1];
    assert CleanCategory(first) && CleanCategory(last);
    assert j[0] == first[0];
    assert j[|j| - 1] == last[|last| - 1];
    SplitJoin(cats, '|');
  }

  /** The categories written with `|` between them come back from the fifth field. */
  lemma CategoriesFieldOfJoin(field: string, cats: seq<string>)
    requires |cats| >= 1 && forall k :: 0 <= k < |cats| ==> CleanCategory(cats[k])
    requires field == Join(cats, "|")
    ensures CategoriesField(field) == cats
  {
    CleanCategoriesJoin(cats);
    forall k | 0 <= k < |cats| ensures Trimmed(cats[k]) {
      assert CleanCategory(cats[k]);
    }
    TrimAllOfTrimmed(cats);
  }

  /** Every field text of an expressible row survives the parser's splitting and trimming. */
  lemma FieldTextsClean(row: UploadRow)
    requires Expressible(row)
    ensures var fields := FieldTexts(row);
      |fields| == 5 && forall k :: 0 <= k < 5 ==> Clean(fields[k])
  {
    CleanCategoriesJoin(row.categories);
    assert Clean(LinkText(row.whatsappLink)) && Clean(LinkText(row.instagramLink));
  }

  /** The fields of a written line are the texts it was written from. */
  lemma FieldsOfFormatLine(row: UploadRow)
    requires Expressible(row)
    ensures Fields(FormatLine(row)) == FieldTexts(row)
  {
    var fields := FieldTexts(row);
    FieldTextsClean(row);
    assert forall k :: 0 <= k < |fields| ==> ',' !in fields[k] && Trimmed(fields[k]);
    assert "," == [','];
    SplitJoin(fields, ',');
    TrimAllOfTrimmed(fields);
  }

  /** A link written out and read back as an optional field is the link itself. */
  lemma OptionalLinkText(fields: seq<string>, i: nat, link: Option<string>)
    requires i < |fields| && fields[i] == LinkText(link) && CleanLink(link)
    ensures OptionalField(fields, i) == link
  {
  }

  /** A line whose fields are the texts written for a row parses back to that row. */
  lemma ParseLineOfFields(line: string, row: UploadRow)
    requires Expressible(row) && Fields(line) == FieldTexts(row)
    ensures ParseLine(line) == row
  {
    RowOfFieldTexts(Fields(line), row);
  }

  lemma RowOfFieldTexts(parts: seq<string>, row: UploadRow)
    requires Expressible(row) && parts == FieldTexts(row)
    ensures UploadRow(Field(parts, 0), Field(parts, 1), OptionalField(parts, 2), OptionalField(parts, 3),
                      CategoriesField(Field(parts, 4))) == row
  {
    CategoriesFieldOfJoin(Field(parts, 4), row.categories);
    OptionalLinkText(parts, 2, row.whatsappLink);
    OptionalLinkText(parts, 3, row.instagramLink);
  }

  /** Parsing the line written for an expressible row gives back that row. */
  lemma ParseFormatLine(row: UploadRow)
    requires Expressible(row)
    ensures ParseLine(FormatLine(row)) == row
  {
    FieldsOfFormatLine(row);
    ParseLineOfFields(FormatLine(row), row);
  }

  /** A written line is a single, non-blank line. */
  lemma FormatLineIsOneLine(row: UploadRow)
    requires Expressible(row)
    ensures '\n' !in FormatLine(row) && NonBlank(FormatLine(row))
  {
    var fields := FieldTexts(row);
    var j := Join(row.categories, "|");
    CleanCategoriesJoin(row.categories);
    assert forall k :: 0 <= k < |fields| ==> Clean(fields[k]);
    var line := Join(fields, ",");
    JoinWithout(fields, ",", '\n');
    JoinEnds(fields, ",");
    assert !IsWhitespace(line[|line| - 1]);
    NonBlankHasVisible(line);
  }

  /** Parsing the text written for a list of expressible rows gives back exactly those rows, in order. */
  lemma ParseFormatBulk(rows: seq<UploadRow>)
    requires forall k :: 0 <= k < |rows| ==> Expressible(rows[k])
    ensures ParseBulk(FormatBulk(rows)) == rows
  {
    if rows == [] {
      TrimmedIsFixed("");
      assert Split("", "\n") == [""];
    } else {
      var lines := seq(|rows|, k requires 0 <= k < |rows| => FormatLine(rows[k]));
      assert FormatBulk(rows) == Join(lines, "\n");
      forall k | 0 <= k < |rows|
        ensures ParseLine(lines[k]) == rows[k] && '\n' !in lines[k] && NonBlank(lines[k])
      {
        ParseFormatLine(rows[k]);
        FormatLineIsOneLine(rows[k]);
      }
      SplitJoin(lines, '\n');
      FilterAll(lines, NonBlank);
    }
  }

  /**
   * The server receives each parsed row with its categories as an array, so its own default
   * never applies; name, image and both links reach the stored product as parsed.
   */
  function ToBulkRow(row: UploadRow): BulkRoute.BulkRow {
    BulkRoute.BulkRow(row.name, row.image, row.whatsappLink, row.instagramLink, Some(row.categories), None)
  }

  lemma UploadKeepsCategories(text: string, k: nat, vendorId: string)
    requires k < |ParseBulk(text)|
    ensures var row := ParseBulk(text)[k];
      BulkRoute.RowCategories(ToBulkRow(row)) == row.categories && |row.categories| >= 1
    ensures var row := ParseBulk(text)[k];
      BulkRoute.ToNewProduct(ToBulkRow(row), vendorId)
        == Store.NewProduct(vendorId, row.name, row.image, row.whatsappLink, row.instagramLink, row.categories)
  {
  }

  // ---------------------------------------------------------------------------------
  // The product form's categories, its submit guard, and editing
  // ---------------------------------------------------------------------------------

  function IsNot(name: string): string -> bool {
    (c: string) => c != name
  }

  /** Unchecking a box or removing a chip: every occurrence of `name` goes, the rest keep their order. */
  function Without(cats: seq<string>, name: string): (r: seq<string>)
    ensures name !in r
    ensures forall c :: c in r <==> c in cats && c != name
    ensures forall c :: c != name ==> multiset(r)[c] == multiset(cats)[c]
  {
    var r := Filter(cats, IsNot(name));
    assert forall c :: c in r <==> c in cats && c != name by {
      forall c ensures c in r <==> c in cats && c != name {
        FilterMembership(cats, IsNot(name), c);
      }
    }
    assert forall c :: c != name ==> multiset(r)[c] == multiset(cats)[c] by {
      forall c ensures c != name ==> multiset(r)[c] == multiset(cats)[c] {
        FilterCount(cats, IsNot(name), c);
      }
    }
    r
  }

  /** The checkbox's change handler: a box that becomes checked appends `name` at the end. */
  function Toggle(cats: seq<string>, name: string, checked: bool): (r: seq<string>)
    ensures checked ==> |r| == |cats| + 1 && r[..|cats|] == cats && r[|cats|] == name
    ensures !checked ==> r == Without(cats, name)
  {
    if checked then cats + [name] else Without(cats, name)
  }

  /** A click on a box, which shows as checked exactly when `name` is in the list. */
  function Click(cats: seq<string>, name: string): (r: seq<string>)
    ensures name in r <==> name !in cats
  {
    Toggle(cats, name, name !in cats)
  }

  /** Checking a box and unchecking it again restores the list. */
  lemma ClickTwice(cats: seq<string>, name: string)
    requires name !in cats
    ensures Click(Click(cats, name), name) == cats
  {
    FilterAppend(cats, [name], IsNot(name));
    FilterAll(cats, IsNot(name));
    assert Filter([name], IsNot(name)) == [];
  }

  /** Removal works piece by piece, so the order of what remains is the order it had. */
  lemma WithoutKeepsOrder(a: seq<string>, b: seq<string>, name: string)
    ensures Without(a + b, name) == Without(a, name) + Without(b, name)
  {
    FilterAppend(a, b, IsNot(name));
  }

  /** The product form's state. */
  datatype Form = Form(name: string, image: string, whatsappLink: string, instagramLink: string, categories: seq<string>)

  /** The JSON body `handleSubmit` sends. */
  datatype Payload = Payload(
    name: string, image: string,
    whatsappLink: Option<string>, instagramLink: Option<string>,
    categories: seq<string>)

  /** `s || undefined`. */
  function OrAbsent(s: string): (r: Option<string>)
    ensures r.None? <==> s == ""
    ensures r.Some? ==> r.value == s
  {
    if s == "" then None else Some(s)
  }

  /** `handleSubmit`: nothing is sent without a category; empty links are sent as absent. */
  function Submit(form: Form): (r: Option<Payload>)
    ensures r.None? <==> form.categories == []
    ensures r.Some? ==>
      (&& r.value.categories == form.categories
       && r.value.name == form.name && r.value.image == form.image
       && (r.value.whatsappLink.None? <==> form.whatsappLink == "")
       && (r.value.instagramLink.None? <==> form.instagramLink == ""))
  {
    if |form.categories| == 0 then None
    else Some(Payload(form.name, form.image, OrAbsent(form.whatsappLink), OrAbsent(form.instagramLink), form.categories))
  }

  /** What the page sends passes the server's category check; only an empty name or image can still fail it. */
  lemma SubmitMeetsServerCheck(form: Form)
    requires form.name != "" && form.image != ""
    requires Submit(form).Some?
    ensures var p := Submit(form).value;
      ProductsRoute.WellFormed(ProductsRoute.ProductBody(
        Some(p.name), Some(p.image), p.whatsappLink, p.instagramLink, Some(p.categories)))
  {
  }

  /** A product as the page receives it. */
  datatype Listing = Listing(
    id: string, name: string, image: string,
    whatsappLink: Option<string>, instagramLink: Option<string>,
    categories: Option<seq<string>>)

  /** `s || ''`. */
  function OrEmpty(s: Option<string>): (r: string)
    ensures r == "" <==> s.None? || s.value == ""
    ensures r != "" ==> s == Some(r)
  {
    if s.Some? then s.value else ""
  }

  /** `handleEdit`: missing links become `''` and missing categories `[]`. */
  function EditForm(listing: Listing): (f: Form)
    ensures f.name == listing.name && f.image == listing.image
    ensures f.categories == (if listing.categories.Some? then listing.categories.value else [])
    ensures (f.whatsappLink == "") <==> listing.whatsappLink.None? || listing.whatsappLink.value == ""
    ensures (f.instagramLink == "") <==> listing.instagramLink.None? || listing.instagramLink.value == ""
    ensures listing.whatsappLink.Some? ==> f.whatsappLink == listing.whatsappLink.value
    ensures listing.instagramLink.Some? ==> f.instagramLink == listing.instagramLink.value
  {
    Form(listing.name, listing.image, OrEmpty(listing.whatsappLink), OrEmpty(listing.instagramLink),
         if listing.categories.Some? then listing.categories.value else [])
  }

  /** A link after a visit to the form: an empty one comes back absent, any other unchanged. */
  function Normalised(link: Option<string>): Option<string> {
    if link.Some? && link.value != "" then link else None
  }

  /**
   * Saving an edit form unchanged sends the listing back as it was, up to empty links;
   * a listing without categories cannot be saved until one is checked.
   */
  lemma EditThenSubmit(listing: Listing)
    ensures listing.categories.None? || listing.categories.value == [] ==> Submit(EditForm(listing)).None?
    ensures listing.categories.Some? && listing.categories.value != [] ==>
      Submit(EditForm(listing)) == Some(Payload(listing.name, listing.image,
        Normalised(listing.whatsappLink), Normalised(listing.instagramLink), listing.categories.value))
  {
  }
}
