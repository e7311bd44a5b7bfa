/** The label triple of the per-flow metric series, shared by both exporters. */
module MetricLabels {

  /** Label values `srcIP`, `dstIP`, `dstPort` of the `pping_service_rtt` series. */
  datatype Labels = Labels(srcIP: string, dstIP: string, dstPort: string)
}
