/** The persisted threat-feed row. */
module Schema {
  import opened Json
  import opened Scoring

  /** A row of the `cves` table: unique `cveId`, the CVSS base score times ten as an
      integer, its severity label, the publication time in milliseconds since the epoch,
      a description and the raw NVD metrics object. The table's generated `id` column is
      never read by the threat feed and is left out. */
  datatype Cve = Cve(
    cveId: string,
    cvssScoreX10: int,
    severity: Severity,
    publishedAt: int,
    description: string,
    metrics: map<string, Json>)
}
