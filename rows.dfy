/** The value arrays `insertJobDataOne` and `insertJobDataTwo` bind to their
    INSERT statements (src/index.js:131-145 and 205-222). */
module Rows {
  import opened Js
  import opened Dates
  import opened Tables

  /** The library calls the row builders make and whose internals are not
      modelled: the text `JSON.stringify` produces for a value it can encode,
      and the local-time Date that `new Date(v)` makes of a value. */
  datatype Platform = Platform(jsonText: Value -> string, localDate: Value -> LocalDate)

  /** The two library results ECMAScript fixes and the collector relies on:
      `new Date(undefined)` is an invalid Date, and `JSON.stringify(null)` is
      the text "null". */
  predicate ValidPlatform(p: Platform) {
    p.localDate(Undefined) == InvalidDate && p.jsonText(Null) == "null"
  }

  /** `JSON.stringify(v)`: `undefined` stays `undefined`, everything else
      becomes a string. */
  function Stringify(p: Platform, v: Value): (r: Value)
    ensures r.Undefined? <==> v.Undefined?
    ensures !r.Undefined? ==> r.Str?
  {
    if v.Undefined? then Undefined else Str(p.jsonText(v))
  }

  // ---------------------------------------------------------------------
  // Endpoint one

  /** The columns of `job_listings` that hold JSON text. */
  const JsonColumnsOne: set<string> := {"jobIndustry", "jobType"}

  /** Column `name` of `job_listings` as drawn from a job: the job's
      property of the same name, JSON-encoded for the two array columns. */
  function ColumnOne(p: Platform, job: Value, name: string): Value
    requires !job.IsNullish()
  {
    if name in JsonColumnsOne then Stringify(p, Prop(job, name)) else Prop(job, name)
  }

  /** The `values` array of `insertJobDataOne`: a nullish job throws on its
      first property read; otherwise one value per column of `job_listings`,
      in the INSERT's column order. */
  function JobDataOne(p: Platform, job: Value): (r: Result<seq<Value>>)
    ensures r.Failure? <==> job.IsNullish()
    ensures r.Failure? ==> r.error == TypeError
    ensures r.Success? ==>
      && |r.value| == |JobListings.columns| == 13
      && forall i :: 0 <= i < |r.value| ==> r.value[i] == ColumnOne(p, job, JobListings.columns[i])
  {
    if job.IsNullish() then Failure(TypeError)
    else
      Success([
        Prop(job, "id"),
        Prop(job, "url"),
        Prop(job, "jobSlug"),
        Prop(job, "jobTitle"),
        Prop(job, "companyName"),
        Prop(job, "companyLogo"),
        Stringify(p, Prop(job, "jobIndustry")),
        Stringify(p, Prop(job, "jobType")),
        Prop(job, "jobGeo"),
        Prop(job, "jobLevel"),
        Prop(job, "jobExcerpt"),
        Prop(job, "jobDescription"),
        Prop(job, "pubDate")
      ])
  }

  /** A job of endpoint one can be written exactly when every plain field is
      present and not null; the two JSON columns only need to be present,
      since `JSON.stringify(null)` is the text "null". */
  lemma JobDataOneAccepted(p: Platform, job: Value)
    requires !job.IsNullish()
    ensures Accepts(JobListings, JobDataOne(p, job).value) <==> FieldsPresentOne(job)
  {
    if Accepts(JobListings, JobDataOne(p, job).value) {
      AcceptedFieldsPresentOne(p, job);
    } else {
      RejectedFieldMissingOne(p, job);
    }
  }

  /** A null `jobIndustry` or `jobType` is written as the JSON text "null". */
  lemma NullJsonColumnOne(p: Platform, job: Value, i: nat)
    requires ValidPlatform(p) && !job.IsNullish() && (i == 6 || i == 7)
    requires Prop(job, JobListings.columns[i]) == Null
    ensures JobDataOne(p, job).value[i] == Str("null")
  {
    assert JobListings.columns[i] in JsonColumnsOne;
  }

  /** Every plain field of the job is present and not null, and both JSON
      fields are present. */
  predicate FieldsPresentOne(job: Value)
    requires !job.IsNullish()
  {
    forall name :: name in JobListings.columns ==>
      if name in JsonColumnsOne then !Prop(job, name).Undefined? else !Prop(job, name).IsNullish()
  }

  lemma AcceptedFieldsPresentOne(p: Platform, job: Value)
    requires !job.IsNullish() && Accepts(JobListings, JobDataOne(p, job).value)
    ensures FieldsPresentOne(job)
  {
    var row := JobDataOne(p, job).value;
    var cols := JobListings.columns;
    forall name | name in cols
      ensures if name in JsonColumnsOne then !Prop(job, name).Undefined? else !Prop(job, name).IsNullish()
    {
      var i :| 0 <= i < |cols| && cols[i] == name;
      assert row[i] == ColumnOne(p, job, name);
    }
  }

  lemma RejectedFieldMissingOne(p: Platform, job: Value)
    requires !job.IsNullish() && !Accepts(JobListings, JobDataOne(p, job).value)
    ensures !FieldsPresentOne(job)
  {
    var row := JobDataOne(p, job).value;
    var cols := JobListings.columns;
    var i :| 0 <= i < |row| && (row[i].Undefined? || (cols[i] in JobListings.notNull && row[i].Null?));
    assert cols[i] in cols;
  }

  // ---------------------------------------------------------------------
  // Endpoint two

  /** How a column of `job_listings_two` is derived from the value it is read from. */
  datatype Conversion = AsIs | Json | Date

  /** A property of the job, or a property of one of the job's objects. */
  datatype Field = Own(name: string) | Nested(parent: string, name: string)

  /** Where a column's value comes from: a field of the job, and the
      conversion applied to what is found there. */
  datatype Source = Source(field: Field, conversion: Conversion)

  /** The source of column `i` of `job_listings_two`, in the INSERT's column order. */
  function SourceTwo(i: nat): Source
    requires i < 16
  {
    match i
    case 0 => Source(Own("id"), AsIs)
    case 1 => Source(Own("title"), AsIs)
    case 2 => Source(Own("description"), AsIs)
    case 3 => Source(Nested("company", "display_name"), AsIs)
    case 4 => Source(Nested("category", "label"), AsIs)
    case 5 => Source(Nested("category", "tag"), AsIs)
    case 6 => Source(Nested("location", "display_name"), AsIs)
    case 7 => Source(Nested("location", "area"), Json)
    case 8 => Source(Own("redirect_url"), AsIs)
    case 9 => Source(Own("salary_min"), AsIs)
    case 10 => Source(Own("salary_max"), AsIs)
    case 11 => Source(Own("salary_is_predicted"), AsIs)
    case 12 => Source(Own("latitude"), AsIs)
    case 13 => Source(Own("longitude"), AsIs)
    case 14 => Source(Own("created"), Date)
    case 15 => Source(Own("adref"), AsIs)
  }

  /** `v === undefined ? null : v` */
  function NullIfUndefined(v: Value): Value {
    if v.Undefined? then Null else v
  }

  /** `values.map(v => v === undefined ? null : v)` */
  function NullForUndefined(vs: seq<Value>): (r: seq<Value>)
    ensures |r| == |vs|
    ensures forall i :: 0 <= i < |vs| ==> r[i] == NullIfUndefined(vs[i])
  {
    seq(|vs|, i requires 0 <= i < |vs| => NullIfUndefined(vs[i]))
  }

  /** Reads a field of a job, throwing where the object it belongs to is
      undefined or null. */
  function Read(job: Value, f: Field): Result<Value> {
    match f
    case Own(name) => Get(job, name)
    case Nested(parent, name) =>
      match Get(job, parent)
      case Failure(e) => Failure(e)
      case Success(obj) => Get(obj, name)
  }

  function Convert(p: Platform, c: Conversion, v: Value): Value {
    match c
    case AsIs => v
    case Json => Stringify(p, v)
    case Date => Str(ConvertDateString(p.localDate(v)))
  }

  /** The value a column gets from its source, with `undefined` sent as NULL. */
  function ColumnTwo(p: Platform, job: Value, src: Source): Value
    requires Read(job, src.field).Success?
  {
    NullIfUndefined(Convert(p, src.conversion, Read(job, src.field).value))
  }

  /** The reads `insertJobDataTwo` makes that can throw: the job itself and
      its `company`, `category` and `location` objects. */
  predicate MissingParent(job: Value) {
    || job.IsNullish()
    || Prop(job, "company").IsNullish()
    || Prop(job, "category").IsNullish()
    || Prop(job, "location").IsNullish()
  }

  /** The array literal of `insertJobDataTwo`, before `undefined` is mapped
      to `null`. */
  function RawJobDataTwo(p: Platform, job: Value): (r: seq<Value>)
    requires !MissingParent(job)
    ensures |r| == 16
  {
    var company := Prop(job, "company");
    var category := Prop(job, "category");
    var location := Prop(job, "location");
    [
      Prop(job, "id"),
      Prop(job, "title"),
      Prop(job, "description"),
      Prop(company, "display_name"),
      Prop(category, "label"),
      Prop(category, "tag"),
      Prop(location, "display_name"),
      Stringify(p, Prop(location, "area")),
      Prop(job, "redirect_url"),
      Prop(job, "salary_min"),
      Prop(job, "salary_max"),
      Prop(job, "salary_is_predicted"),
      Prop(job, "latitude"),
      Prop(job, "longitude"),
      Str(ConvertDateString(p.localDate(Prop(job, "created")))),
      Prop(job, "adref")
    ]
  }

  /** The `values` array of `insertJobDataTwo`: a missing job or parent object
      throws; otherwise exactly 16 values, none of them `undefined`. */
  function JobDataTwo(p: Platform, job: Value): (r: Result<seq<Value>>)
    ensures r.Failure? <==> MissingParent(job)
    ensures r.Failure? ==> r.error == TypeError
    ensures r.Success? ==>
      && |r.value| == |JobListingsTwo.columns| == 16
      && forall i :: 0 <= i < |r.value| ==> !r.value[i].Undefined?
  {
    if MissingParent(job) then Failure(TypeError)
    else Success(NullForUndefined(RawJobDataTwo(p, job)))
  }

  /** Column `i` of the literal reads what `SourceTwo(i)` names. */
  lemma RawColumnTwo(p: Platform, job: Value, i: nat)
    requires !MissingParent(job) && i < 16
    ensures Read(job, SourceTwo(i).field).Success?
    ensures RawJobDataTwo(p, job)[i] == Convert(p, SourceTwo(i).conversion, Read(job, SourceTwo(i).field).value)
  {
    if i < 2 { RawColumnsTwoAt0(p, job, i); }
    else if i < 4 { RawColumnsTwoAt2(p, job, i); }
    else if i < 6 { RawColumnsTwoAt4(p, job, i); }
    else if i < 8 { RawColumnsTwoAt6(p, job, i); }
    else if i < 10 { RawColumnsTwoAt8(p, job, i); }
    else if i < 12 { RawColumnsTwoAt10(p, job, i); }
    else if i < 14 { RawColumnsTwoAt12(p, job, i); }
    else { RawColumnsTwoAt14(p, job, i); }
  }

  lemma RawColumnsTwoAt0(p: Platform, job: Value, i: nat)
    requires !MissingParent(job) && 0 <= i < 2
    ensures Read(job, SourceTwo(i).field).Success?
    ensures RawJobDataTwo(p, job)[i] == Convert(p, SourceTwo(i).conversion, Read(job, SourceTwo(i).field).value)
  {
    if i == 0 {
      assert RawJobDataTwo(p, job)[0] == Prop(job, "id");
    } else {
      assert RawJobDataTwo(p, job)[1] == Prop(job, "title");
    }
  }

  lemma RawColumnsTwoAt2(p: Platform, job: Value, i: nat)
    requires !MissingParent(job) && 2 <= i < 4
    ensures Read(job, SourceTwo(i).field).Success?
    ensures RawJobDataTwo(p, job)[i] == Convert(p, SourceTwo(i).conversion, Read(job, SourceTwo(i).field).value)
  {
    if i == 2 {
      assert RawJobDataTwo(p, job)[2] == Prop(job, "description");
    } else {
      assert RawJobDataTwo(p, job)[3] == Prop(Prop(job, "company"), "display_name");
    }
  }

  lemma RawColumnsTwoAt4(p: Platform, job: Value, i: nat)
    requires !MissingParent(job) && 4 <= i < 6
    ensures Read(job, SourceTwo(i).field).Success?
    ensures RawJobDataTwo(p, job)[i] == Convert(p, SourceTwo(i).conversion, Read(job, SourceTwo(i).field).value)
  {
    if i == 4 {
      assert RawJobDataTwo(p, job)[4] == Prop(Prop(job, "category"), "label");
    } else {
      assert RawJobDataTwo(p, job)[5] == Prop(Prop(job, "category"), "tag");
    }
  }

  lemma RawColumnsTwoAt6(p: Platform, job: Value, i: nat)
    requires !MissingParent(job) && 6 <= i < 8
    ensures Read(job, SourceTwo(i).field).Success?
    ensures RawJobDataTwo(p, job)[i] == Convert(p, SourceTwo(i).conversion, Read(job, SourceTwo(i).field).value)
  {
    if i == 6 {
      assert RawJobDataTwo(p, job)[6] == Prop(Prop(job, "location"), "display_name");
    } else {
      assert RawJobDataTwo(p, job)[7] == Stringify(p, Prop(Prop(job, "location"), "area"));
    }
  }

  lemma RawColumnsTwoAt8(p: Platform, job: Value, i: nat)
    requires !MissingParent(job) && 8 <= i < 10
    ensures Read(job, SourceTwo(i).field).Success?
    ensures RawJobDataTwo(p, job)[i] == Convert(p, SourceTwo(i).conversion, Read(job, SourceTwo(i).field).value)
  {
    if i == 8 {
      assert RawJobDataTwo(p, job)[8] == Prop(job, "redirect_url");
    } else {
      assert RawJobDataTwo(p, job)[9] == Prop(job, "salary_min");
    }
  }

  lemma RawColumnsTwoAt10(p: Platform, job: Value, i: nat)
    requires !MissingParent(job) && 10 <= i < 12
    ensures Read(job, SourceTwo(i).field).Success?
    ensures RawJobDataTwo(p, job)[i] == Convert(p, SourceTwo(i).conversion, Read(job, SourceTwo(i).field).value)
  {
    if i == 10 {
      assert RawJobDataTwo(p, job)[10] == Prop(job, "salary_max");
    } else {
      assert RawJobDataTwo(p, job)[11] == Prop(job, "salary_is_predicted");
    }
  }

  lemma RawColumnsTwoAt12(p: Platform, job: Value, i: nat)
    requires !MissingParent(job) && 12 <= i < 14
    ensures Read(job, SourceTwo(i).field).Success?
    ensures RawJobDataTwo(p, job)[i] == Convert(p, SourceTwo(i).conversion, Read(job, SourceTwo(i).field).value)
  {
    if i == 12 {
      assert RawJobDataTwo(p, job)[12] == Prop(job, "latitude");
    } else {
      assert RawJobDataTwo(p, job)[13] == Prop(job, "longitude");
    }
  }

  lemma RawColumnsTwoAt14(p: Platform, job: Value, i: nat)
    requires !MissingParent(job) && 14 <= i < 16
    ensures Read(job, SourceTwo(i).field).Success?
    ensures RawJobDataTwo(p, job)[i] == Convert(p, SourceTwo(i).conversion, Read(job, SourceTwo(i).field).value)
  {
    if i == 14 {
      assert RawJobDataTwo(p, job)[14] == Str(ConvertDateString(p.localDate(Prop(job, "created"))));
    } else {
      assert RawJobDataTwo(p, job)[15] == Prop(job, "adref");
    }
  }

  /** Each of the 16 values is the one its column's source names, read from
      the job and converted, with `undefined` replaced by NULL and every other
      value left as it is. */
  lemma JobDataTwoColumns(p: Platform, job: Value)
    requires !MissingParent(job)
    ensures 16 == |JobDataTwo(p, job).value|
    ensures forall i :: 0 <= i < 16 ==>
      && Read(job, SourceTwo(i).field).Success?
      && JobDataTwo(p, job).value[i] == ColumnTwo(p, job, SourceTwo(i))
  {
    forall i | 0 <= i < 16
      ensures Read(job, SourceTwo(i).field).Success?
      ensures JobDataTwo(p, job).value[i] == ColumnTwo(p, job, SourceTwo(i))
    {
      RawColumnTwo(p, job, i);
    }
  }

  /** A job of endpoint two whose parents are present can be written exactly
      when its `id` and `title` are present and not null: every other column
      is nullable and no binding is ever `undefined`. */
  lemma JobDataTwoAccepted(p: Platform, job: Value)
    requires !MissingParent(job)
    ensures Accepts(JobListingsTwo, JobDataTwo(p, job).value) <==>
      !Prop(job, "id").IsNullish() && !Prop(job, "title").IsNullish()
  {
    var row := JobDataTwo(p, job).value;
    var raw := RawJobDataTwo(p, job);
    assert row[0] == NullIfUndefined(raw[0]) && raw[0] == Prop(job, "id");
    assert row[1] == NullIfUndefined(raw[1]) && raw[1] == Prop(job, "title");
    NullableColumnsTwo();
  }

  /** A field missing from an endpoint-two job is bound as NULL in its own
      column position, for every column but `created`; the row still has
      all 16 values. */
  lemma MissingFieldBoundAsNull(p: Platform, job: Value, i: nat)
    requires !MissingParent(job) && i < 16
    requires Read(job, SourceTwo(i).field) == Success(Undefined) && SourceTwo(i).conversion != Date
    ensures |JobDataTwo(p, job).value| == 16
    ensures JobDataTwo(p, job).value[i] == Null
  {
    RawColumnTwo(p, job, i);
  }

  /** A missing `created` is not NULL: `convertDateString(undefined)` renders
      the invalid Date's NaN fields. */
  lemma MissingCreatedRendersNaN(p: Platform, job: Value)
    requires ValidPlatform(p) && !MissingParent(job) && Prop(job, "created") == Undefined
    ensures |JobDataTwo(p, job).value| == 16
    ensures JobDataTwo(p, job).value[14] == Str("NaN-NaN-NaN NaN:NaN:NaN")
  {
    RawColumnTwo(p, job, 14);
    ConvertInvalidDate();
    assert JobDataTwo(p, job).value[14] == Str(ConvertDateString(InvalidDate));
  }
}
