/**
 * The parsed shape of one `EXPLAIN FORMAT=json` plan and the advisory table
 * that reads it: one advisory chosen by the table's access type, and a
 * second one when the table is scanned for many rows.
 */
module PlanAdvisory {

  /** Go's `int64`. */
  newtype Int64 = x: int | -0x8000_0000_0000_0000 <= x < 0x8000_0000_0000_0000

  /** Cost figures, kept as the decimal strings the engine emits. */
  datatype CostInfo = CostInfo(
    queryCost: string,
    readCost: string,
    evalCost: string,
    prefixCost: string,
    dataReadPerJoin: string)

  /** The single table a plan reads. */
  datatype TableInfo = TableInfo(
    tableName: string,
    accessType: string,
    rowsExaminedPerScan: Int64,
    rowsProducedPerJoin: Int64,
    filtered: string,
    costInfo: CostInfo,
    usedColumns: seq<string>)

  datatype QueryBlock = QueryBlock(selectId: Int64, costInfo: CostInfo, table: TableInfo)

  /** The root of the parsed plan document. */
  datatype ExplainResult = ExplainResult(queryBlock: QueryBlock)

  /** The access types the table names; every other code is `Unknown`, which keeps it. */
  datatype AccessType =
    | All
    | Index
    | Range
    | Ref
    | Const
    | UniqueSubquery
    | IndexSubquery
    | Unknown(code: string)

  /** The seven codes the table recognises. */
  const KnownCodes: set<string> :=
    {"ALL", "index", "range", "ref", "const", "unique_subquery", "index_subquery"}

  /** An access type as the decoder can produce it: `Unknown` never holds a known code. */
  predicate Valid(a: AccessType) {
    a.Unknown? ==> a.code !in KnownCodes
  }

  /** The `switch` on the access-type string: an exact, case-sensitive match. */
  function Classify(code: string): (a: AccessType)
    ensures Valid(a)
    ensures a.Unknown? <==> code !in KnownCodes
  {
    match code
    case "ALL" => All
    case "index" => Index
    case "range" => Range
    case "ref" => Ref
    case "const" => Const
    case "unique_subquery" => UniqueSubquery
    case "index_subquery" => IndexSubquery
    case _ => Unknown(code)
  }

  /** The code an access type is written as. */
  function Code(a: AccessType): string {
    match a
    case All => "ALL"
    case Index => "index"
    case Range => "range"
    case Ref => "ref"
    case Const => "const"
    case UniqueSubquery => "unique_subquery"
    case IndexSubquery => "index_subquery"
    case Unknown(code) => code
  }

  /** Classifying keeps the code: every string is recovered from its access type. */
  lemma CodeClassify(code: string)
    ensures Code(Classify(code)) == code
  {
  }

  /** And back: every access type the decoder can produce is recovered from its code. */
  lemma ClassifyCode(a: AccessType)
    requires Valid(a)
    ensures Classify(Code(a)) == a
  {
  }

  /** One piece of advice printed for a plan. */
  datatype Advisory =
    | FullTableScan
    | IndexScan
    | RangeScan
    | RefLookup
    | ConstLookup
    | UniqueSubqueryLookup
    | IndexSubqueryLookup
    | UnknownAccess
    | HighScanVolume

  /** The row count above which the high-volume advisory is added. */
  const HighScanThreshold: Int64 := 1000

  /** The advisory the access-type table selects: exactly one per access type. */
  function AccessAdvisory(a: AccessType): (adv: Advisory)
    ensures adv != HighScanVolume
    ensures adv == UnknownAccess <==> a.Unknown?
  {
    match a
    case All => FullTableScan
    case Index => IndexScan
    case Range => RangeScan
    case Ref => RefLookup
    case Const => ConstLookup
    case UniqueSubquery => UniqueSubqueryLookup
    case IndexSubquery => IndexSubqueryLookup
    case Unknown(_) => UnknownAccess
  }

  /** The advisories printed for a table, in print order. */
  function Advisories(t: TableInfo): (advs: seq<Advisory>)
    ensures 1 <= |advs| <= 2
    ensures advs[0] == AccessAdvisory(Classify(t.accessType))
    ensures HighScanVolume in advs <==> t.rowsExaminedPerScan > HighScanThreshold
  {
    [AccessAdvisory(Classify(t.accessType))]
      + (if t.rowsExaminedPerScan > HighScanThreshold then [HighScanVolume] else [])
  }

  /** The advisories printed for a whole plan: those its table's access type and scan volume call for. */
  function PlanAdvisories(e: ExplainResult): (advs: seq<Advisory>)
    ensures 1 <= |advs| <= 2
    ensures advs[0] == AccessAdvisory(Classify(e.queryBlock.table.accessType))
    ensures HighScanVolume in advs <==> e.queryBlock.table.rowsExaminedPerScan > HighScanThreshold
  {
    Advisories(e.queryBlock.table)
  }

  /** The advisory texts, verbatim, one constant per advisory. */
  const FullTableScanText: string := "访问类型为 ALL，全表扫描. 如果非必须, 需要索引。"
  const IndexScanText: string := "访问类型为 index，索引扫描. 可以再优化"
  const RangeScanText: string := "访问类型为 range，范围扫描. 可以考虑添加更适合的索引以提升性能。"
  const RefLookupText: string := "访问类型为 ref，唯一索引查找. 使用非唯一性索引或唯一性索引查找匹配的数据行. 基本不需要优化."
  const ConstLookupText: string := "访问类型为 const，常量查找 by primary key/unique key. 针对性一条条找. 已经是最优访问方式，无需优化。"
  const UniqueSubqueryLookupText: string := "访问类型为 unique_subquery，唯一子查询. 在子查询中使用了唯一索引来查找匹配的数据行. 建议 join 优化掉子查询"
  const IndexSubqueryLookupText: string := "访问类型为 index_subquery，在子查询中使用了非唯一性索引来查找匹配的数据行. 建议 join 优化"
  const UnknownAccessText: string := "未知的访问类型，可以进一步分析执行计划并优化查询。"
  const HighScanVolumeText: string := "扫描的行数较多，可能需要优化查询或添加索引。"

  /** The text written for each advisory. */
  function Message(adv: Advisory): string {
    match adv
    case FullTableScan => FullTableScanText
    case IndexScan => IndexScanText
    case RangeScan => RangeScanText
    case RefLookup => RefLookupText
    case ConstLookup => ConstLookupText
    case UniqueSubqueryLookup => UniqueSubqueryLookupText
    case IndexSubqueryLookup => IndexSubqueryLookupText
    case UnknownAccess => UnknownAccessText
    case HighScanVolume => HighScanVolumeText
  }

  /** Every advisory, whichever access type produced it, writes some text. */
  lemma MessageNonEmpty(adv: Advisory)
    ensures Message(adv) != ""
  {
  }

  /**
   * The table is total and exact: each known code selects its own advisory,
   * and every other string, whatever its case, selects the unknown-type one.
   */
  lemma AccessTable(code: string)
    ensures var adv := AccessAdvisory(Classify(code));
            && (adv == FullTableScan <==> code == "ALL")
            && (adv == IndexScan <==> code == "index")
            && (adv == RangeScan <==> code == "range")
            && (adv == RefLookup <==> code == "ref")
            && (adv == ConstLookup <==> code == "const")
            && (adv == UniqueSubqueryLookup <==> code == "unique_subquery")
            && (adv == IndexSubqueryLookup <==> code == "index_subquery")
            && (adv == UnknownAccess <==> code !in KnownCodes)
  {
  }

  /** Exactly one access-type advisory is printed for every table. */
  lemma OneAccessAdvisory(t: TableInfo)
    ensures |set i | 0 <= i < |Advisories(t)| && Advisories(t)[i] != HighScanVolume| == 1
  {
    var advs := Advisories(t);
    assert (set i | 0 <= i < |advs| && advs[i] != HighScanVolume) == {0};
  }

  /** The high-volume advisory is printed exactly when more than 1000 rows are examined, after the other. */
  lemma HighVolumeShape(t: TableInfo)
    ensures t.rowsExaminedPerScan > HighScanThreshold ==>
              Advisories(t) == [AccessAdvisory(Classify(t.accessType)), HighScanVolume]
    ensures t.rowsExaminedPerScan <= HighScanThreshold ==>
              Advisories(t) == [AccessAdvisory(Classify(t.accessType))]
  {
  }

  /** Only the access type and the examined-row count matter; costs, names and columns do not. */
  lemma AdvisoriesDependOnlyOn(t: TableInfo, u: TableInfo)
    requires t.accessType == u.accessType && t.rowsExaminedPerScan == u.rowsExaminedPerScan
    ensures Advisories(t) == Advisories(u)
  {
  }

  /** A full scan of 5000 rows gets both advisories. */
  lemma FullScanOfManyRows(t: TableInfo)
    requires t.accessType == "ALL" && t.rowsExaminedPerScan == 5000
    ensures Advisories(t) == [FullTableScan, HighScanVolume]
  {
  }

  /** A constant lookup of one row gets only the "already optimal" advisory. */
  lemma ConstLookupOfOneRow(t: TableInfo)
    requires t.accessType == "const" && t.rowsExaminedPerScan == 1
    ensures Advisories(t) == [ConstLookup]
  {
  }
}
