/** The records of src/types/index.ts: a company of the static data set, its funding stage,
    and the enrichment payload that the enrichment route returns. */
module Types {

  datatype Option<T> = None | Some(value: T)

  /** The five funding stages a company can be at. */
  datatype Stage = PreSeed | Seed | SeriesA | SeriesB | SeriesC

  /** The string value the data and the filters use for a stage. */
  function StageName(s: Stage): string {
    match s
    case PreSeed => "Pre-seed"
    case Seed => "Seed"
    case SeriesA => "Series A"
    case SeriesB => "Series B"
    case SeriesC => "Series C+"
  }

  /** Distinct stages have distinct names, so filtering on names is filtering on stages. */
  lemma StageNameInjective(a: Stage, b: Stage)
    ensures StageName(a) == StageName(b) ==> a == b
  {
  }

  /** One entry of the static company data. `totalFunding` and `lastRoundDate` are the
      optional fields; the optional cached `enrichment` is not used by the modelled logic. */
  datatype Company = Company(
    id: string,
    name: string,
    website: string,
    sector: string,
    stage: Stage,
    location: string,
    founded: int,
    employees: string,
    description: string,
    tags: seq<string>,
    totalFunding: Option<string>,
    lastRoundDate: Option<string>)

  /** The ids of a sequence of companies, in order. */
  function CompanyIds(cs: seq<Company>): (r: seq<string>)
    ensures |r| == |cs|
    ensures forall i :: 0 <= i < |cs| ==> r[i] == cs[i].id
  {
    seq(|cs|, i requires 0 <= i < |cs| => cs[i].id)
  }

  /** An inferred signal; the source's `type` and `label` fields are `kind` and `labelText`
      here, both names being Dafny keywords. */
  datatype Signal = Signal(kind: string, labelText: string, detail: string)

  datatype Source = Source(url: string, scrapedAt: string)

  datatype EnrichmentResult = EnrichmentResult(
    summary: string,
    whatTheyDo: seq<string>,
    keywords: seq<string>,
    signals: seq<Signal>,
    sources: seq<Source>,
    enrichedAt: string)
}
