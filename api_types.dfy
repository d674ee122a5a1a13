/** The transfer objects the backend returns and the frontend renders (frontend/src/types/api.ts). */
module ApiTypes {

  datatype ResumeContent = ResumeContent(
    rawText: string,
    skills: seq<string>,
    experience: seq<string>,
    projects: seq<string>)

  datatype JobDescription = JobDescription(rawText: string, requiredSkills: seq<string>)

  datatype SkillAnalysis = SkillAnalysis(
    strongMatches: seq<string>,
    weakMatches: seq<string>,
    missingSkills: seq<string>)

  /** Scores are floating-point numbers in the source; they are carried, never computed, here. */
  datatype ScoringResult = ScoringResult(
    overallScore: real,
    skillsScore: real,
    experienceScore: real,
    projectScore: real)

  datatype AnalysisComputations = AnalysisComputations(
    scores: ScoringResult,
    skillGap: SkillAnalysis,
    resumeData: ResumeContent,
    jdData: JobDescription)

  datatype AIInsights = AIInsights(
    summaryExplanation: string,
    atsSuggestions: seq<string>,
    rewrittenBullets: seq<string>)

  datatype FullAnalysisResponse = FullAnalysisResponse(
    computation: AnalysisComputations,
    aiInsights: AIInsights)
}
