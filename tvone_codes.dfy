/**
 * Numbers of the TV One CORIOmatrix control protocol that the controller
 * uses: window and source identifiers, function codes and the resolution
 * catalogue entries of the factory defaults (firmware 362 numbering).
 */
module TVOneCodes {

  // Windows
  const WindowA: int := 0x41  // 'A'
  const WindowB: int := 0x42  // 'B'

  // Sources
  const SourceRGB1: int := 0x10
  const SourceRGB2: int := 0x11
  // The internal test-pattern sources and the power-on preset store are
  // used by the controller but not defined in the constants header that is
  // part of this model; their values are left unspecified.
  const SourceSIS1: int
  const SourceSIS2: int

  // Functions
  const FunctionMode: int := 0x109
  const FunctionPreset: int := 0x225
  const FunctionPresetStore: int := 0x227
  const FunctionPowerOnPresetStore: int
  const OutputsOutputEnable: int := 0x170
  const OutputsLockMethod: int := 0x10A
  const OutputsHDCPRequired: int := 0x233
  const OutputsHDCPStatus: int := 0x234
  const WindowsWindowSource: int := 0x82
  const WindowsEnable: int := 0x12B
  const WindowsZoomLevel: int := 0x86
  const WindowsShrinkEnable: int := 0x18E
  const WindowsMaxFadeLevel: int := 0x10F
  const WindowsLayerPriority: int := 0x144
  const KeyerEnable: int := 0x127
  const KeyerMinY: int := 0xAF
  const KeyerMinU: int := 0xB0
  const KeyerMinV: int := 0xB1
  const KeyerMaxY: int := 0xB2
  const KeyerMaxU: int := 0xB3
  const KeyerMaxV: int := 0xB4
  const SourceTestCard: int := 0xDC
  const SourceAspectCorrect: int := 0x240
  const SourceEDID: int := 0x243
  const SourceHDCPAdvertize: int := 0x237
  const SourceHDCPStatus: int := 0x238
  const SourceOnSourceLoss: int := 0xA3
  const SourceSourceStable: int := 0x22A
  // Output additive mixing on processors with firmware version 423.
  const AdditiveMixing: int := 0x298

  // Resolutions of the factory defaults
  const ResolutionVGA: int := 0x8
  const ResolutionSVGA: int := 0x12
  const ResolutionXGAp60: int := 0x1C
  const ResolutionWSXGAPLUSp60: int := 0x53
  const ResolutionWUXGAp60: int := 0x70
  const Resolution720p60: int := 0x2E
  const Resolution1080p60: int := 0x6A
  const ResolutionDualHeadSVGAp60: int := 0x7B
  const ResolutionDualHeadXGAp60: int := 0x7C
  const ResolutionTripleHeadVGAp60: int := 0x7D
}
