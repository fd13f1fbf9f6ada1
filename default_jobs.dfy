/** The 20 job postings the server inserts into an empty `jobs` table at start-up, in list order. */
module DefaultJobs {
  import opened Wrappers
  import opened Records

  /** The default postings, in the order they are inserted. */
  function Postings(): (r: seq<JobPosting>)
    ensures |r| == 20
  {
    [ Posting01, Posting02, Posting03, Posting04, Posting05, Posting06, Posting07, Posting08, Posting09, Posting10,
      Posting11, Posting12, Posting13, Posting14, Posting15, Posting16, Posting17, Posting18, Posting19, Posting20 ]
  }

  const Posting01: JobPosting :=
    JobPosting(
      "Senior Software Engineer", "TechCorp Solutions", "San Francisco, CA", "Full-time",
      Some("$120,000 - $160,000"),
      "We are seeking a Senior Software Engineer to join our dynamic team. You will be responsible for designing, developing, and maintaining scalable web applications using modern technologies. This role offers excellent growth opportunities and the chance to work on cutting-edge projects.",
      "Bachelor\'s degree in Computer Science or related field\n5+ years of experience in software development\nProficiency in JavaScript, React, Node.js\nExperience with cloud platforms (AWS, Azure)\nStrong problem-solving skills\nExcellent communication abilities")

  const Posting02: JobPosting :=
    JobPosting(
      "Product Manager", "InnovateLabs", "New York, NY", "Full-time",
      Some("$100,000 - $140,000"),
      "Join our product team as a Product Manager where you\'ll drive product strategy and execution. You\'ll work closely with engineering, design, and marketing teams to deliver exceptional user experiences and drive business growth.",
      "MBA or equivalent experience\n3+ years in product management\nExperience with agile methodologies\nStrong analytical skills\nExcellent stakeholder management\nData-driven decision making")

  const Posting03: JobPosting :=
    JobPosting(
      "UX/UI Designer", "DesignStudio Pro", "Los Angeles, CA", "Full-time",
      Some("$80,000 - $110,000"),
      "We\'re looking for a creative UX/UI Designer to create intuitive and visually appealing user interfaces. You\'ll collaborate with product managers and developers to design user-centered solutions that enhance user experience.",
      "Bachelor\'s degree in Design or related field\n3+ years of UX/UI design experience\nProficiency in Figma, Sketch, Adobe Creative Suite\nStrong portfolio demonstrating design process\nUnderstanding of user research methods\nKnowledge of front-end development principles")

  const Posting04: JobPosting :=
    JobPosting(
      "Data Scientist", "DataTech Analytics", "Seattle, WA", "Full-time",
      Some("$110,000 - $150,000"),
      "Join our data science team to extract insights from complex datasets and build predictive models. You\'ll work on machine learning projects that directly impact business decisions and product development.",
      "Master\'s degree in Data Science, Statistics, or related field\nProficiency in Python, R, SQL\nExperience with machine learning frameworks\nStrong statistical analysis skills\nExperience with big data technologies\nExcellent presentation skills")

  const Posting05: JobPosting :=
    JobPosting(
      "Marketing Specialist", "GrowthMarketing Inc", "Chicago, IL", "Full-time",
      Some("$60,000 - $80,000"),
      "We\'re seeking a Marketing Specialist to develop and execute marketing campaigns across multiple channels. You\'ll analyze market trends, create compelling content, and drive customer acquisition and retention.",
      "Bachelor\'s degree in Marketing or related field\n2+ years of marketing experience\nExperience with digital marketing tools\nStrong analytical and creative skills\nKnowledge of SEO/SEM\nExcellent written communication")

  const Posting06: JobPosting :=
    JobPosting(
      "DevOps Engineer", "CloudFirst Technologies", "Austin, TX", "Full-time",
      Some("$95,000 - $130,000"),
      "Join our DevOps team to build and maintain scalable infrastructure. You\'ll work on automation, CI/CD pipelines, and cloud infrastructure to support our growing platform.",
      "Bachelor\'s degree in Computer Science or related field\n3+ years of DevOps experience\nExperience with AWS, Docker, Kubernetes\nProficiency in scripting languages\nKnowledge of monitoring and logging tools\nStrong troubleshooting skills")

  const Posting07: JobPosting :=
    JobPosting(
      "Sales Representative", "SalesForce Pro", "Miami, FL", "Full-time",
      Some("$50,000 - $70,000 + Commission"),
      "We\'re looking for an energetic Sales Representative to join our growing sales team. You\'ll be responsible for generating leads, building relationships with clients, and closing deals.",
      "Bachelor\'s degree preferred\n1+ years of sales experience\nExcellent communication skills\nStrong negotiation abilities\nSelf-motivated and goal-oriented\nCRM software experience")

  const Posting08: JobPosting :=
    JobPosting(
      "Frontend Developer", "WebDev Solutions", "Portland, OR", "Full-time",
      Some("$75,000 - $100,000"),
      "Join our frontend team to build responsive and interactive web applications. You\'ll work with modern frameworks and collaborate with designers to create exceptional user experiences.",
      "Bachelor\'s degree in Computer Science or related field\n2+ years of frontend development experience\nProficiency in HTML, CSS, JavaScript\nExperience with React or Vue.js\nKnowledge of responsive design\nAttention to detail")

  const Posting09: JobPosting :=
    JobPosting(
      "HR Manager", "PeopleFirst Corp", "Denver, CO", "Full-time",
      Some("$70,000 - $90,000"),
      "We\'re seeking an HR Manager to oversee all aspects of human resources practices and processes. You\'ll support business needs and ensure the proper implementation of company strategy and objectives.",
      "Bachelor\'s degree in HR or related field\n5+ years of HR experience\nKnowledge of employment law\nStrong interpersonal skills\nExperience with HRIS systems\nPHR or SHRM certification preferred")

  const Posting10: JobPosting :=
    JobPosting(
      "Backend Developer", "ServerSide Technologies", "Boston, MA", "Full-time",
      Some("$85,000 - $115,000"),
      "Join our backend team to develop robust server-side applications and APIs. You\'ll work on scalable systems that power our web and mobile applications.",
      "Bachelor\'s degree in Computer Science\n3+ years of backend development experience\nProficiency in Node.js, Python, or Java\nExperience with databases (SQL/NoSQL)\nKnowledge of API design principles\nUnderstanding of microservices architecture")

  const Posting11: JobPosting :=
    JobPosting(
      "Graphic Designer", "Creative Minds Studio", "Nashville, TN", "Part-time",
      Some("$25 - $35 per hour"),
      "We\'re looking for a talented Graphic Designer to create visual concepts that communicate ideas that inspire, inform, and captivate consumers. You\'ll work on various projects including branding, marketing materials, and digital assets.",
      "Bachelor\'s degree in Graphic Design or related field\n2+ years of graphic design experience\nProficiency in Adobe Creative Suite\nStrong portfolio showcasing creativity\nAttention to detail\nAbility to work under tight deadlines")

  const Posting12: JobPosting :=
    JobPosting(
      "Project Manager", "ProjectPro Management", "Phoenix, AZ", "Full-time",
      Some("$80,000 - $105,000"),
      "Join our team as a Project Manager to lead cross-functional teams and deliver projects on time and within budget. You\'ll coordinate resources, manage stakeholders, and ensure project success.",
      "Bachelor\'s degree in Business or related field\n4+ years of project management experience\nPMP certification preferred\nExperience with project management tools\nStrong leadership skills\nExcellent organizational abilities")

  const Posting13: JobPosting :=
    JobPosting(
      "Content Writer", "ContentCraft Media", "Remote", "Contract",
      Some("$30 - $50 per hour"),
      "We\'re seeking a skilled Content Writer to create engaging and informative content for various digital platforms. You\'ll research topics, write articles, and optimize content for SEO.",
      "Bachelor\'s degree in English, Journalism, or related field\n2+ years of content writing experience\nExcellent writing and editing skills\nSEO knowledge\nResearch abilities\nAbility to meet deadlines")

  const Posting14: JobPosting :=
    JobPosting(
      "Quality Assurance Engineer", "TestTech Solutions", "San Diego, CA", "Full-time",
      Some("$70,000 - $95,000"),
      "Join our QA team to ensure the quality and reliability of our software products. You\'ll design test cases, execute testing procedures, and work closely with development teams to identify and resolve issues.",
      "Bachelor\'s degree in Computer Science or related field\n3+ years of QA experience\nExperience with automated testing tools\nKnowledge of testing methodologies\nAttention to detail\nStrong analytical skills")

  const Posting15: JobPosting :=
    JobPosting(
      "Business Analyst", "Analytics Pro", "Atlanta, GA", "Full-time",
      Some("$75,000 - $100,000"),
      "We\'re looking for a Business Analyst to analyze business processes and recommend improvements. You\'ll gather requirements, document processes, and work with stakeholders to implement solutions.",
      "Bachelor\'s degree in Business or related field\n3+ years of business analysis experience\nStrong analytical skills\nExperience with requirements gathering\nKnowledge of process improvement methodologies\nExcellent communication skills")

  const Posting16: JobPosting :=
    JobPosting(
      "Mobile App Developer", "MobileTech Innovations", "San Jose, CA", "Full-time",
      Some("$90,000 - $120,000"),
      "Join our mobile development team to create innovative iOS and Android applications. You\'ll work on user-friendly mobile solutions that reach millions of users worldwide.",
      "Bachelor\'s degree in Computer Science\n3+ years of mobile development experience\nProficiency in Swift/Kotlin or React Native\nExperience with mobile UI/UX principles\nKnowledge of mobile testing frameworks\nApp Store/Play Store publishing experience")

  const Posting17: JobPosting :=
    JobPosting(
      "Cybersecurity Specialist", "SecureNet Systems", "Washington, DC", "Full-time",
      Some("$100,000 - $135,000"),
      "We\'re seeking a Cybersecurity Specialist to protect our organization\'s computer systems and networks. You\'ll monitor security breaches, implement security measures, and conduct security assessments.",
      "Bachelor\'s degree in Cybersecurity or related field\n4+ years of cybersecurity experience\nSecurity certifications (CISSP, CEH, etc.)\nKnowledge of security frameworks\nExperience with security tools\nStrong problem-solving skills")

  const Posting18: JobPosting :=
    JobPosting(
      "Financial Analyst", "FinanceFirst Advisory", "Charlotte, NC", "Full-time",
      Some("$65,000 - $85,000"),
      "Join our finance team as a Financial Analyst to analyze financial data and create reports that guide business decisions. You\'ll work on budgeting, forecasting, and financial modeling.",
      "Bachelor\'s degree in Finance or related field\n2+ years of financial analysis experience\nProficiency in Excel and financial software\nStrong analytical skills\nKnowledge of financial modeling\nCFA certification preferred")

  const Posting19: JobPosting :=
    JobPosting(
      "Customer Success Manager", "ClientCare Solutions", "Dallas, TX", "Full-time",
      Some("$70,000 - $90,000"),
      "We\'re looking for a Customer Success Manager to ensure our clients achieve their desired outcomes while using our products. You\'ll build relationships, provide support, and drive customer retention.",
      "Bachelor\'s degree in Business or related field\n3+ years of customer success experience\nExcellent communication skills\nStrong relationship-building abilities\nExperience with CRM systems\nProblem-solving mindset")

  const Posting20: JobPosting :=
    JobPosting(
      "Operations Manager", "EfficiencyFirst Operations", "Minneapolis, MN", "Full-time",
      Some("$85,000 - $110,000"),
      "Join our operations team as an Operations Manager to oversee daily operations and improve operational efficiency. You\'ll manage teams, optimize processes, and ensure quality standards.",
      "Bachelor\'s degree in Operations Management or related field\n5+ years of operations experience\nStrong leadership skills\nExperience with process improvement\nKnowledge of supply chain management\nExcellent organizational abilities")
}
