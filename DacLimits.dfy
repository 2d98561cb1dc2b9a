/** The VFAT3 hardware limits the DAC value writer enforces. */
module DacLimits {
  /**
   * The largest value each known DAC register accepts. The script's table
   * lists THR_ARM_DAC and THR_ZCC_DAC twice with the same value; a map holds
   * each once.
   */
  const MaxDacValues: map<string, nat> := map[
    "BIAS_PRE_I_BIT" := 0xff,
    "BIAS_PRE_I_BLCC" := 0x3f,
    "BIAS_SH_I_BFCAS" := 0xff,
    "BIAS_SH_I_BDIFF" := 0xff,
    "BIAS_SD_I_BDIFF" := 0xff,
    "BIAS_SD_I_BFCAS" := 0xff,
    "BIAS_SD_I_BSF" := 0x3f,
    "BIAS_CFD_DAC_1" := 0x3f,
    "BIAS_CFD_DAC_2" := 0x3f,
    "HYST" := 0x3f,
    "THR_ARM_DAC" := 0xff,
    "THR_ZCC_DAC" := 0xff,
    "BIAS_PRE_VREF" := 0xff,
    "ADC_VREF" := 0x3
  ]

  /**
   * Every maximum in the table is one of the DAC widths 0x3, 0x3f and 0xff;
   * the duplicated registers keep the one value both entries give them.
   */
  lemma MaxDacValuesTable()
    ensures forall reg :: reg in MaxDacValues ==> MaxDacValues[reg] == 0x3 || MaxDacValues[reg] == 0x3f || MaxDacValues[reg] == 0xff
    ensures MaxDacValues["THR_ARM_DAC"] == 0xff && MaxDacValues["THR_ZCC_DAC"] == 0xff && MaxDacValues["ADC_VREF"] == 0x3
  {
  }

  /** VFAT slots whose configuration files are never patched. */
  const ExcludedSlots: set<int> := {11, 12}

  /**
   * The value written for a nominal value: never negative, and for a register
   * with a known maximum never above it; a register without one has no upper bound.
   */
  function ClampValue(reg: string, value: int): (r: nat)
    ensures value < 0 ==> r == 0
    ensures reg in MaxDacValues ==> r <= MaxDacValues[reg] <= 0xff
    ensures reg in MaxDacValues && value > MaxDacValues[reg] ==> r == MaxDacValues[reg]
    ensures 0 <= value && (reg !in MaxDacValues || value <= MaxDacValues[reg]) ==> r == value
  {
    var v := if value < 0 then 0 else value;
    if reg in MaxDacValues && v > MaxDacValues[reg] then MaxDacValues[reg] else v
  }

}
