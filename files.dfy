/** The files the knock-out scripts write and `collate_cluster_output` reads.

    A directory is a map from file name to content; a name that is not a key
    does not exist. Pickle and TSV/CSV encodings are not modelled: a file
    holds the Python value that was dumped, or the rows that were written. */
module Files {

  /** The content of one pickle in `cluster_output`. */
  datatype Pickle =
    /** `{gene: cost}`, written by `single_knockouts.py`. */
    | GeneCosts(costs: map<string, real>)
    /** `{(geneA, geneB): growth}`, written by `double_function_knockouts`. */
    | PairGrowth(growth: map<(string, string), real>)
    /** The `{'x': ..., 'y': ..., 'data': ...}` dictionary cobra's
        `double_gene_deletion` returns: row genes, column genes, and a
        `|data|` by `columns` growth matrix. */
    | GrowthMatrix(x: seq<string>, y: seq<string>, columns: nat, data: seq<seq<real>>)

  /** The `cluster_output` directory of one model. */
  type ClusterOutput = map<string, Pickle>

  /** The content of one file `collate_cluster_output` writes. */
  datatype Table =
    /** `minimal_media_no_growth.tsv`: one `carbon<TAB>nitrogen` row per environment. */
    | EnvironmentList(rows: seq<(string, string)>)
    /** `gene_loss_costs.tsv` and `function_loss_costs.tsv`: a header row,
        then one row per gene with one cost per growth environment. */
    | CostTable(header: seq<string>, costs: map<string, seq<real>>)
    /** `double_{gene,function}_loss_growth.csv`: one `geneA,geneB,growth` row per pair. */
    | PairTable(growth: map<(string, string), real>)

  /** The model directory `collate_cluster_output` writes into. */
  type ModelDirectory = map<string, Table>
}
