/** The CUB-200-2011 Indonesian caption loader's class table
    (`IMAGE_CLASS`), its builder configs and `_info`.
 */
module CubBahasaInfo {
  import opened Common
  import opened CubBahasa

  // ---------------------------------------------------------------------
  // IMAGE_CLASS
  // ---------------------------------------------------------------------

  /** The part of each class name after `kkk.`, for k = 1 .. 200. */
  const Species: seq<string> := [
    "Black_footed_Albatross", "Laysan_Albatross", "Sooty_Albatross", "Groove_billed_Ani",
    "Crested_Auklet", "Least_Auklet", "Parakeet_Auklet", "Rhinoceros_Auklet",
    "Brewer_Blackbird", "Red_winged_Blackbird", "Rusty_Blackbird", "Yellow_headed_Blackbird",
    "Bobolink", "Indigo_Bunting", "Lazuli_Bunting", "Painted_Bunting",
    "Cardinal", "Spotted_Catbird", "Gray_Catbird", "Yellow_breasted_Chat",
    "Eastern_Towhee", "Chuck_will_Widow", "Brandt_Cormorant", "Red_faced_Cormorant",
    "Pelagic_Cormorant", "Bronzed_Cowbird", "Shiny_Cowbird", "Brown_Creeper",
    "American_Crow", "Fish_Crow", "Black_billed_Cuckoo", "Mangrove_Cuckoo",
    "Yellow_billed_Cuckoo", "Gray_crowned_Rosy_Finch", "Purple_Finch", "Northern_Flicker",
    "Acadian_Flycatcher", "Great_Crested_Flycatcher", "Least_Flycatcher", "Olive_sided_Flycatcher",
    "Scissor_tailed_Flycatcher", "Vermilion_Flycatcher", "Yellow_bellied_Flycatcher", "Frigatebird",
    "Northern_Fulmar", "Gadwall", "American_Goldfinch", "European_Goldfinch",
    "Boat_tailed_Grackle", "Eared_Grebe", "Horned_Grebe", "Pied_billed_Grebe",
    "Western_Grebe", "Blue_Grosbeak", "Evening_Grosbeak", "Pine_Grosbeak",
    "Rose_breasted_Grosbeak", "Pigeon_Guillemot", "California_Gull", "Glaucous_winged_Gull",
    "Heermann_Gull", "Herring_Gull", "Ivory_Gull", "Ring_billed_Gull",
    "Slaty_backed_Gull", "Western_Gull", "Anna_Hummingbird", "Ruby_throated_Hummingbird",
    "Rufous_Hummingbird", "Green_Violetear", "Long_tailed_Jaeger", "Pomarine_Jaeger",
    "Blue_Jay", "Florida_Jay", "Green_Jay", "Dark_eyed_Junco",
    "Tropical_Kingbird", "Gray_Kingbird", "Belted_Kingfisher", "Green_Kingfisher",
    "Pied_Kingfisher", "Ringed_Kingfisher", "White_breasted_Kingfisher", "Red_legged_Kittiwake",
    "Horned_Lark", "Pacific_Loon", "Mallard", "Western_Meadowlark",
    "Hooded_Merganser", "Red_breasted_Merganser", "Mockingbird", "Nighthawk",
    "Clark_Nutcracker", "White_breasted_Nuthatch", "Baltimore_Oriole", "Hooded_Oriole",
    "Orchard_Oriole", "Scott_Oriole", "Ovenbird", "Brown_Pelican",
    "White_Pelican", "Western_Wood_Pewee", "Sayornis", "American_Pipit",
    "Whip_poor_Will", "Horned_Puffin", "Common_Raven", "White_necked_Raven",
    "American_Redstart", "Geococcyx", "Loggerhead_Shrike", "Great_Grey_Shrike",
    "Baird_Sparrow", "Black_throated_Sparrow", "Brewer_Sparrow", "Chipping_Sparrow",
    "Clay_colored_Sparrow", "House_Sparrow", "Field_Sparrow", "Fox_Sparrow",
    "Grasshopper_Sparrow", "Harris_Sparrow", "Henslow_Sparrow", "Le_Conte_Sparrow",
    "Lincoln_Sparrow", "Nelson_Sharp_tailed_Sparrow", "Savannah_Sparrow", "Seaside_Sparrow",
    "Song_Sparrow", "Tree_Sparrow", "Vesper_Sparrow", "White_crowned_Sparrow",
    "White_throated_Sparrow", "Cape_Glossy_Starling", "Bank_Swallow", "Barn_Swallow",
    "Cliff_Swallow", "Tree_Swallow", "Scarlet_Tanager", "Summer_Tanager",
    "Artic_Tern", "Black_Tern", "Caspian_Tern", "Common_Tern",
    "Elegant_Tern", "Forsters_Tern", "Least_Tern", "Green_tailed_Towhee",
    "Brown_Thrasher", "Sage_Thrasher", "Black_capped_Vireo", "Blue_headed_Vireo",
    "Philadelphia_Vireo", "Red_eyed_Vireo", "Warbling_Vireo", "White_eyed_Vireo",
    "Yellow_throated_Vireo", "Bay_breasted_Warbler", "Black_and_white_Warbler", "Black_throated_Blue_Warbler",
    "Blue_winged_Warbler", "Canada_Warbler", "Cape_May_Warbler", "Cerulean_Warbler",
    "Chestnut_sided_Warbler", "Golden_winged_Warbler", "Hooded_Warbler", "Kentucky_Warbler",
    "Magnolia_Warbler", "Mourning_Warbler", "Myrtle_Warbler", "Nashville_Warbler",
    "Orange_crowned_Warbler", "Palm_Warbler", "Pine_Warbler", "Prairie_Warbler",
    "Prothonotary_Warbler", "Swainson_Warbler", "Tennessee_Warbler", "Wilson_Warbler",
    "Worm_eating_Warbler", "Yellow_Warbler", "Northern_Waterthrush", "Louisiana_Waterthrush",
    "Bohemian_Waxwing", "Cedar_Waxwing", "American_Three_toed_Woodpecker", "Pileated_Woodpecker",
    "Red_bellied_Woodpecker", "Red_cockaded_Woodpecker", "Red_headed_Woodpecker", "Downy_Woodpecker",
    "Bewick_Wren", "Cactus_Wren", "Carolina_Wren", "House_Wren",
    "Marsh_Wren", "Rock_Wren", "Winter_Wren", "Common_Yellowthroat"
  ]

  /** `IMAGE_CLASS[k]`; `None` is the `KeyError` for any other key. */
  function ImageClass(k: int): (r: Option<string>)
    ensures r.Some? <==> 1 <= k <= 200
    ensures r.Some? ==> r.value == ClassName(k, Species[k - 1])
  {
    if 1 <= k <= |Species| then Some(ClassName(k, Species[k - 1])) else None
  }

  /** `list(IMAGE_CLASS.values())`, the label names of the unified schema. */
  function ClassNames(): (names: seq<string>)
    ensures |names| == 200
  {
    NamesOf(Species)
  }

  /** The class names are pairwise distinct, so class `k` sits at position
      `k - 1` of the label-name list and `index` finds it there. */
  lemma ClassNamesIndex(k: int)
    requires 1 <= k <= 200
    ensures ClassNames()[k - 1] == ImageClass(k).value
    ensures IndexOf(ClassNames(), ImageClass(k).value) == Some(k - 1)
  {
    NamesOfIndex(Species, k);
  }

  // ---------------------------------------------------------------------
  // Configurations and _info
  // ---------------------------------------------------------------------

  function BuilderConfigs(): seq<Config>
  {
    [ Config(DatasetName + "_source", SourceVersion, DatasetName + " source schema", SourceSchema, DatasetName),
      Config(DatasetName + "_seacrowd_" + SeaCrowdSchemaName, SeaCrowdVersion, DatasetName + " SEACrowd schema",
             ImTextSchema, DatasetName) ]
  }

  datatype Features = SourceFeatures | ImageTextFeatures(labelNames: seq<string>)

  /** `_info`: there is no branch for an unknown schema, so `features` is
      read unbound and Python raises `UnboundLocalError`. */
  function Info(c: Config): (r: Result<Features>)
    ensures r.Ok? <==> c.schema == SourceSchema || c.schema == ImTextSchema
    ensures c.schema == SourceSchema ==> r == Ok(SourceFeatures)
    ensures r.Ok? && c.schema == ImTextSchema ==> r.value == ImageTextFeatures(ClassNames())
    ensures r.Err? ==> r.error == UnboundLocalError
  {
    if c.schema == SourceSchema then Ok(SourceFeatures)
    else if c.schema == ImTextSchema then Ok(ImageTextFeatures(ClassNames()))
    else Err(UnboundLocalError)
  }

  /** Two configs, source first; both have feature sets and the default
      config is the first. */
  lemma BuilderConfigsInfo()
    ensures |BuilderConfigs()| == 2
    ensures BuilderConfigs()[0].name == DefaultConfigName && BuilderConfigs()[0].schema == SourceSchema
    ensures BuilderConfigs()[1].schema == ImTextSchema
    ensures forall i :: 0 <= i < 2 ==> Info(BuilderConfigs()[i]).Ok?
  {
  }

  /** The label-name list is the class table: looking a key up in it agrees
      with `IMAGE_CLASS`. */
  lemma LookupClassNames(k: int)
    ensures Lookup(ClassNames(), k) == ImageClass(k)
  {
    if 1 <= k <= 200 {
      ClassNamesIndex(k);
    }
  }
}
